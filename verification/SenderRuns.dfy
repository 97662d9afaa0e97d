/** What holds over every run of the packet builder, including runs with rejected commands. */
module SenderRuns {
  import opened OscTypes
  import opened Packets
  import opened SenderSpec

  // Order conservation and frozen history

  /** What an accepted command contributes to the tree, read off the command and the height of the stack. */
  function Contribution(s: State, c: Cmd): seq<Entry> {
    match c
    case EndMessage =>
      if s.bundleOpen && s.message.Some? then
        [Entry(|s.stack|, Leaf(CStr(s.pattern), s.message.value.args))]
      else []
    case BeginBundle => [Entry(|s.stack|, Open(IMMEDIATE))]
    case BeginBundleAt(tag) => [Entry(|s.stack|, Open(tag))]
    case _ => []
  }

  predicate Empties(c: Cmd) {
    c.Send? || c.Clear?
  }

  /** The contributions of a run since the stack was last empty. */
  function Log(s: State, cmds: seq<Cmd>, log: seq<Entry>): seq<Entry>
    decreases |cmds|
  {
    if cmds == [] then log else
    match Step(s, cmds[0])
    case Accepted(next) =>
      Log(next, cmds[1..], if next.stack == [] then [] else log + Contribution(s, cmds[0]))
    case Threw(_) => Log(s, cmds[1..], log)
    case Undefined => log
  }

  /** An accepted build step only appends to the outline of the tree. */
  lemma StepOutline(s: State, c: Cmd)
    requires Step(s, c).Accepted?
    ensures StackOutline(Step(s, c).next.stack) ==
            if Step(s, c).next.stack == [] then [] else StackOutline(s.stack) + Contribution(s, c)
    ensures Step(s, c).next.stack == [] <==> Empties(c) || (s.stack == [] && !c.BeginBundle? && !c.BeginBundleAt?)
  {
    match c
    case EndMessage => if s.bundleOpen { AddTopMeasures(s.stack, Placed(s)); }
    case BeginBundle => PushMeasures(s.stack, Frame(s.allocs, IMMEDIATE, []));
    case BeginBundleAt(tag) => PushMeasures(s.stack, Frame(s.allocs, tag, []));
    case EndBundle => if |s.stack| > 1 { PopMeasures(s.stack); }
    case _ =>
  }

  lemma {:induction false} LogIsOutline(s: State, cmds: seq<Cmd>)
    requires Run(s, cmds).Some?
    ensures StackOutline(Run(s, cmds).value.stack) == Log(s, cmds, StackOutline(s.stack))
    decreases |cmds|
  {
    if cmds != [] {
      match Step(s, cmds[0])
      case Accepted(next) =>
        StepOutline(s, cmds[0]);
        LogIsOutline(next, cmds[1..]);
      case Threw(_) => LogIsOutline(s, cmds[1..]);
    }
  }

  /**
   Order conservation, for every run: the tree below the stack is the one packet whose outline is the list
   of messages and bundles placed since the stack was last empty, each at the height it was placed.
   */
  lemma OrderConservation(cmds: seq<Cmd>, p: Packet)
    requires Run(INITIAL, cmds).Some? && Run(INITIAL, cmds).value.stack != []
    ensures Strip(Root(Run(INITIAL, cmds).value.stack)) == p <==> Outline(p, 0) == Log(INITIAL, cmds, [])
  {
    var t := Run(INITIAL, cmds).value;
    LogIsOutline(INITIAL, cmds);
    RootMeasures(t.stack);
    if Outline(p, 0) == Log(INITIAL, cmds, []) {
      OutlineInjective(Strip(Root(t.stack)), p, 0);
    }
  }

  /** No command of the run empties the stack. */
  predicate KeepsBuilding(s: State, cmds: seq<Cmd>)
    decreases |cmds|
  {
    cmds == [] ||
    match Step(s, cmds[0])
    case Accepted(next) => !Empties(cmds[0]) && KeepsBuilding(next, cmds[1..])
    case Threw(_) => KeepsBuilding(s, cmds[1..])
    case Undefined => false
  }

  /** Frozen history: until `send` or `clear`, what is in the tree stays there, unchanged and in place. */
  lemma {:induction false} FrozenHistory(s: State, cmds: seq<Cmd>)
    requires KeepsBuilding(s, cmds) && s.stack != []
    ensures Run(s, cmds).Some? && Run(s, cmds).value.stack != []
    ensures Outline(Strip(Root(s.stack)), 0) <= Outline(Strip(Root(Run(s, cmds).value.stack)), 0)
    decreases |cmds|
  {
    if cmds != [] {
      match Step(s, cmds[0])
      case Accepted(next) =>
        StepOutline(s, cmds[0]);
        RootMeasures(s.stack);
        RootMeasures(next.stack);
        FrozenHistory(next, cmds[1..]);
      case Threw(_) => FrozenHistory(s, cmds[1..]);
    }
  }

  // Rejected commands are invisible

  /** Each exception, and exactly when it is thrown. */
  lemma Rejections(s: State, c: Cmd)
    ensures Step(s, c) == Threw(MessageNotInProgress) <==> (c.Add? || c.EndMessage?) && !s.messageOpen
    ensures Step(s, c) == Threw(BundleNotInProgress) <==> c.EndBundle? && !s.bundleOpen
    ensures Step(s, c) == Threw(MessageInProgress) <==>
            ((c.BeginMessage? || c.BeginBundleAt?) && s.messageOpen) || (c.BeginBundle? && s.bundleOpen)
    ensures Step(s, c) == Threw(SendException) <==>
            c.Send? && (s.address.None? || s.messageOpen || s.bundleOpen || (s.stack == [] && s.message.None?))
  {
  }

  /** The commands of a run that did not throw. */
  function Kept(s: State, cmds: seq<Cmd>): seq<Cmd>
    decreases |cmds|
  {
    if cmds == [] then [] else
    match Step(s, cmds[0])
    case Accepted(next) => [cmds[0]] + Kept(next, cmds[1..])
    case Threw(_) => Kept(s, cmds[1..])
    case Undefined => [cmds[0]]
  }

  /** Without its rejected commands a run throws nothing and ends in the same state, transmissions included. */
  lemma {:induction false} RejectedInvisible(s: State, cmds: seq<Cmd>)
    ensures Feed(s, Kept(s, cmds)) == Run(s, cmds) == Run(s, Kept(s, cmds))
    decreases |cmds|
  {
    if cmds != [] {
      match Step(s, cmds[0])
      case Accepted(next) =>
        RejectedInvisible(next, cmds[1..]);
        assert Kept(s, cmds)[1..] == Kept(next, cmds[1..]);
      case Threw(_) => RejectedInvisible(s, cmds[1..]);
      case Undefined =>
    }
  }

  // Defined behaviour

  /** A flag is never set without the object it stands for. */
  predicate Safe(s: State) {
    (s.messageOpen ==> s.message.Some?) && (s.bundleOpen ==> s.stack != [])
  }

  predicate MidBuildClear(s: State, c: Cmd) {
    c.Clear? && (s.messageOpen || s.bundleOpen)
  }

  /** The run never calls `clear` while a message or a bundle is in progress. */
  predicate Patient(s: State, cmds: seq<Cmd>)
    decreases |cmds|
  {
    cmds == [] ||
    (!MidBuildClear(s, cmds[0]) &&
     match Step(s, cmds[0])
     case Accepted(next) => Patient(next, cmds[1..])
     case Threw(_) => Patient(s, cmds[1..])
     case Undefined => true)
  }

  /** From a safe state a command is defined, and it leads to an unsafe state exactly when it is a mid-build `clear`. */
  lemma SafeStep(s: State, c: Cmd)
    requires Safe(s)
    ensures !Step(s, c).Undefined?
    ensures Step(s, c).Accepted? ==> (Safe(Step(s, c).next) <==> !MidBuildClear(s, c))
  {
  }

  lemma {:induction false} SafeRun(s: State, cmds: seq<Cmd>)
    requires Safe(s) && Patient(s, cmds)
    ensures Run(s, cmds).Some? && Safe(Run(s, cmds).value)
    decreases |cmds|
  {
    if cmds != [] {
      SafeStep(s, cmds[0]);
      match Step(s, cmds[0])
      case Accepted(next) => SafeRun(next, cmds[1..]);
      case Threw(_) => SafeRun(s, cmds[1..]);
    }
  }

  /** The shortest way from a flag without its object to undefined behaviour. */
  function Crash(s: State): seq<Cmd> {
    if s.messageOpen && s.message.None? then [Add(Nil)]
    else if s.messageOpen then [EndMessage]
    else [BeginMessage(""), EndMessage]
  }

  lemma UnsafeCrashes(s: State)
    requires !Safe(s)
    ensures Patient(s, Crash(s)) && Run(s, Crash(s)).None?
  {
  }

  /** The shortest such run: a `clear` in the middle of a message, and the next argument goes to NULL. */
  lemma ClearMidMessage(path: string, a: Arg)
    ensures Run(INITIAL, [BeginMessage(path)] + [Clear] + [Add(a)]).None?
  {
    var cmds := [BeginMessage(path)] + [Clear] + [Add(a)];
    var s1 := Step(INITIAL, cmds[0]).next;
    var s2 := Step(s1, Clear).next;
    assert cmds[1..][0] == Clear && cmds[1..][1..] == [Add(a)];
    assert Step(s2, Add(a)).Undefined?;
    assert Run(s2, [Add(a)]).None?;
    assert Run(INITIAL, cmds) == Run(s1, cmds[1..]) == Run(s2, [Add(a)]);
  }

  /** A state is safe exactly when no continuation without a mid-build `clear` can reach undefined behaviour. */
  lemma SafeExactly(s: State)
    ensures Safe(s) <==> forall cmds :: Patient(s, cmds) ==> Run(s, cmds).Some?
  {
    if Safe(s) {
      forall cmds | Patient(s, cmds) ensures Run(s, cmds).Some? { SafeRun(s, cmds); }
    } else {
      UnsafeCrashes(s);
    }
  }

  // Depth accounting

  /** Accepted begins and ends of bundles since the last `send` or `clear`. */
  datatype Tally = Tally(
    begins: nat,
    ends: nat,
    reopened: nat,    // begins after the outermost bundle was closed but not yet sent
    emptyEnds: nat)   // ends after `clear` took the open bundles away

  const ZERO := Tally(0, 0, 0, 0)

  predicate Reopens(s: State, c: Cmd) {
    (c.BeginBundle? || c.BeginBundleAt?) && !s.bundleOpen && s.stack != []
  }

  function Counted(s: State, c: Cmd, t: Tally): Tally {
    match c
    case Send => ZERO
    case Clear => ZERO
    case BeginBundle => t.(begins := t.begins + 1, reopened := t.reopened + if Reopens(s, c) then 1 else 0)
    case BeginBundleAt(_) => t.(begins := t.begins + 1, reopened := t.reopened + if Reopens(s, c) then 1 else 0)
    case EndBundle => t.(ends := t.ends + 1, emptyEnds := t.emptyEnds + if s.stack == [] then 1 else 0)
    case _ => t
  }

  function Count(s: State, cmds: seq<Cmd>, t: Tally): Tally
    decreases |cmds|
  {
    if cmds == [] then t else
    match Step(s, cmds[0])
    case Accepted(next) => Count(next, cmds[1..], Counted(s, cmds[0], t))
    case Threw(_) => Count(s, cmds[1..], t)
    case Undefined => t
  }

  function Depth(s: State): nat {
    if s.bundleOpen then |s.stack| else 0
  }

  lemma {:induction false} DepthLaw(s: State, cmds: seq<Cmd>, t: Tally)
    requires Run(s, cmds).Some?
    requires |s.stack| > 1 ==> s.bundleOpen
    requires Depth(s) == t.begins - t.ends + t.reopened + t.emptyEnds
    ensures var r := Count(s, cmds, t);
            Depth(Run(s, cmds).value) == r.begins - r.ends + r.reopened + r.emptyEnds
    decreases |cmds|
  {
    if cmds != [] {
      match Step(s, cmds[0])
      case Accepted(next) =>
        DepthLaw(next, cmds[1..], Counted(s, cmds[0], t));
      case Threw(_) => DepthLaw(s, cmds[1..], t);
    }
  }

  /**
   Depth accounting, for every run: begins minus ends is the height of the stack while a bundle is in progress
   and zero otherwise, exactly when no closed bundle was reopened and no end was accepted on an emptied stack.
   */
  lemma DepthAccounting(cmds: seq<Cmd>)
    requires Run(INITIAL, cmds).Some?
    ensures var t := Count(INITIAL, cmds, ZERO);
            Depth(Run(INITIAL, cmds).value) == t.begins - t.ends <==> t.reopened == 0 && t.emptyEnds == 0
  {
    DepthLaw(INITIAL, cmds, ZERO);
  }

  /** Closing the outermost bundle keeps it on the stack: the next bundle nests inside it and needs two ends. */
  lemma ReopenNestsDeeper(tag: TimeTag)
    ensures var t := Feed(INITIAL, [BeginBundleAt(tag)] + [EndBundle] + [BeginBundleAt(tag)] + [EndBundle]);
            t.Some? && t.value.bundleOpen && |t.value.stack| == 1
  {
    var b, e := BeginBundleAt(tag), EndBundle;
    var s1 := Pushed(INITIAL, tag);
    var s2 := s1.(bundleOpen := false);
    var s3 := Pushed(s2, tag);
    FeedOne(INITIAL, b);
    FeedOne(s1, e);
    FeedOne(s2, b);
    FeedOne(s3, e);
    FeedConcat(INITIAL, [b], [e]);
    FeedConcat(INITIAL, [b] + [e], [b]);
    FeedConcat(INITIAL, [b] + [e] + [b], [e]);
  }

  /**
   `beginBundle()` without a tag nests exactly after the outermost bundle was closed: inside an open bundle it throws,
   and with nothing on the stack it opens the outermost one.
   */
  lemma UntaggedNestsExactly(s: State)
    ensures Step(s, BeginBundle).Accepted? && |Step(s, BeginBundle).next.stack| > 1 <==> !s.bundleOpen && s.stack != []
    ensures s.bundleOpen <==> Step(s, BeginBundle) == Threw(MessageInProgress)
  {
  }

  /** So the header's promise fails at the first attempt to nest with it. */
  lemma UntaggedRefused(tag: TimeTag)
    ensures Step(Pushed(INITIAL, tag), BeginBundle) == Threw(MessageInProgress)
    ensures Feed(INITIAL, [BeginBundleAt(tag)] + [BeginBundle]).None?
    ensures var t := Feed(INITIAL, [BeginBundleAt(tag)] + [BeginBundleAt(tag)]);
            t.Some? && |t.value.stack| == 2
  {
    FeedOne(INITIAL, BeginBundleAt(tag));
    FeedSnoc(INITIAL, [BeginBundleAt(tag)], BeginBundle);
    FeedSnoc(INITIAL, [BeginBundleAt(tag)], BeginBundleAt(tag));
  }
}
