/**
 Runs of a well-behaved client. What such a run transmits is exactly what its accepted commands spell,
 nothing it allocates is lost, and bundle depth is begins minus ends.
 */
module SenderDiscipline {
  import opened OscTypes
  import opened Packets
  import opened SenderSpec
  import opened SenderRuns
  import opened SenderOwnership
  import opened SenderRoundTrip

  predicate Begins(c: Cmd) {
    c.BeginMessage? || c.BeginBundle? || c.BeginBundleAt?
  }

  /** What a well-behaved client observes of the state before it issues a command. */
  predicate Mannered(s: State, c: Cmd) {
    && !MidBuildClear(s, c)
    && (c.EndBundle? || c.BeginBundle? ==> !s.messageOpen)
    && (Begins(c) && !s.messageOpen && !s.bundleOpen ==> s.stack == [] && s.message.None?)
  }

  predicate Disciplined(s: State, cmds: seq<Cmd>)
    decreases |cmds|
  {
    cmds == [] ||
    match Step(s, cmds[0])
    case Accepted(next) => Mannered(s, cmds[0]) && Disciplined(next, cmds[1..])
    case Threw(_) => Disciplined(s, cmds[1..])
    case Undefined => true
  }

  /** The states of disciplined runs. */
  predicate Orderly(s: State) {
    && Safe(s)
    && (s.message.Some? && s.stack != [] ==> s.messageOpen && s.bundleOpen)
    && (|s.stack| > 1 ==> s.bundleOpen)
  }

  // The commands a state spells

  function WrittenStack(stack: seq<Frame>): seq<Cmd>
    decreases |stack|
  {
    if stack == [] then [] else
    var top := |stack| - 1;
    WrittenStack(stack[..top]) + WrittenFrame(stack[top])
  }

  function WrittenFrame(f: Frame): seq<Cmd> {
    [BeginBundleAt(f.tag)] + LinearAll(StripAll(f.done))
  }

  function WrittenDraft(s: State): seq<Cmd> {
    if s.message.None? then [] else
    [BeginMessage(CStr(s.pattern))] + Adds(s.message.value.args) + if s.messageOpen then [] else [EndMessage]
  }

  function Written(s: State): seq<Cmd> {
    WrittenStack(s.stack) + (if s.stack == [] || s.bundleOpen then [] else [EndBundle]) + WrittenDraft(s)
  }

  /** A command as it takes effect. */
  function Effective(c: Cmd): Cmd {
    match c
    case BeginBundle => BeginBundleAt(IMMEDIATE)
    case BeginMessage(path) => BeginMessage(CStr(path))
    case Add(a) => Add(OnWire(a))
    case _ => c
  }

  lemma {:induction false} LinearAllConcat(xs: seq<Packet>, ys: seq<Packet>)
    ensures LinearAll(xs + ys) == LinearAll(xs) + LinearAll(ys)
  {
    if xs == [] {
      assert xs + ys == ys;
    } else {
      var zs := xs + ys;
      assert zs[0] == xs[0] && zs[1..] == xs[1..] + ys;
      assert LinearAll(zs) == Linear(xs[0]) + LinearAll(xs[1..] + ys);
      LinearAllConcat(xs[1..], ys);
      Associative(Linear(xs[0]), LinearAll(xs[1..]), LinearAll(ys));
    }
  }

  lemma {:induction false} AddsSnoc(args: seq<Arg>, a: Arg)
    ensures Adds(args + [a]) == Adds(args) + [Add(a)]
  {
    if args != [] {
      var more := args + [a];
      assert more[0] == args[0] && more[1..] == args[1..] + [a];
      AddsSnoc(args[1..], a);
      Associative([Add(args[0])], Adds(args[1..]), [Add(a)]);
    } else {
      assert args + [a] == [a];
    }
  }

  lemma WrittenFrameGrows(f: Frame, n: Node)
    ensures WrittenFrame(f.(done := f.done + [n])) == WrittenFrame(f) + Linear(Strip(n))
  {
    StripAllConcat(f.done, [n]);
    assert StripAll([n]) == [Strip(n)];
    LinearAllConcat(StripAll(f.done), [Strip(n)]);
    assert LinearAll([Strip(n)]) == Linear(Strip(n)) + [];
    Associative([BeginBundleAt(f.tag)], LinearAll(StripAll(f.done)), Linear(Strip(n)));
  }

  lemma WrittenAddTop(stack: seq<Frame>, n: Node)
    requires stack != []
    ensures WrittenStack(AddTop(stack, n)) == WrittenStack(stack) + Linear(Strip(n))
  {
    var top := |stack| - 1;
    assert AddTop(stack, n)[..top] == stack[..top];
    WrittenFrameGrows(stack[top], n);
    Associative(WrittenStack(stack[..top]), WrittenFrame(stack[top]), Linear(Strip(n)));
  }

  lemma WrittenPush(stack: seq<Frame>, f: Frame)
    requires f.done == []
    ensures WrittenStack(stack + [f]) == WrittenStack(stack) + [BeginBundleAt(f.tag)]
  {
    assert (stack + [f])[..|stack|] == stack;
    assert WrittenFrame(f) == [BeginBundleAt(f.tag)];
  }

  lemma WrittenPop(stack: seq<Frame>)
    requires |stack| > 1
    ensures WrittenStack(Pop(stack)) == WrittenStack(stack) + [EndBundle]
  {
    var top := |stack| - 1;
    WrittenAddTop(stack[..top], Close(stack[top]));
    assert Linear(Strip(Close(stack[top]))) == WrittenFrame(stack[top]) + [EndBundle];
    Associative(WrittenStack(stack[..top]), WrittenFrame(stack[top]), [EndBundle]);
  }

  // One disciplined step

  lemma OrderlyStep(s: State, c: Cmd)
    requires Orderly(s)
    ensures !Step(s, c).Undefined?
    ensures Step(s, c).Accepted? && Mannered(s, c) ==> Orderly(Step(s, c).next)
  {
  }

  predicate Builds(c: Cmd) {
    !c.Setup? && !Empties(c)
  }

  /** Every accepted build command is written down, once, at the end. */
  lemma StepWrites(s: State, c: Cmd)
    requires Orderly(s) && Mannered(s, c) && Step(s, c).Accepted? && Builds(c)
    ensures Written(Step(s, c).next) == Written(s) + [Effective(c)]
  {
    match c
    case BeginMessage(path) => WritesBeginMessage(s, path);
    case Add(a) => WritesAdd(s, a);
    case EndMessage => WritesEndMessage(s);
    case BeginBundle => WritesPushed(s, IMMEDIATE);
    case BeginBundleAt(tag) => WritesPushed(s, tag);
    case EndBundle => WritesEndBundle(s);
  }

  lemma StepWritesNothing(s: State, c: Cmd)
    requires Step(s, c).Accepted? && !Builds(c)
    ensures Written(Step(s, c).next) == if Empties(c) then [] else Written(s)
  {
    var t := Step(s, c).next;
    if Empties(c) {
      assert t.stack == [] && t.message.None?;
      assert WrittenStack([]) == [];
    } else {
      assert WrittenDraft(t) == WrittenDraft(s);
    }
  }

  lemma WritesPushed(s: State, tag: TimeTag)
    requires s.message.None? && (s.bundleOpen || s.stack == [])
    ensures Written(Pushed(s, tag)) == Written(s) + [BeginBundleAt(tag)]
  {
    WrittenPush(s.stack, Frame(s.allocs, tag, []));
    assert Written(s) == WrittenStack(s.stack);
    assert Written(Pushed(s, tag)) == WrittenStack(Pushed(s, tag).stack);
  }

  lemma WritesEndBundle(s: State)
    requires s.message.None? && s.bundleOpen && s.stack != []
    ensures Written(Step(s, EndBundle).next) == Written(s) + [EndBundle]
  {
    assert Written(s) == WrittenStack(s.stack);
    if |s.stack| > 1 {
      WrittenPop(s.stack);
    }
  }

  lemma WritesBeginMessage(s: State, path: string)
    requires s.message.None? && (s.bundleOpen || s.stack == []) && Step(s, BeginMessage(path)).Accepted?
    ensures Written(Step(s, BeginMessage(path)).next) == Written(s) + [Effective(BeginMessage(path))]
  {
    assert WrittenDraft(Step(s, BeginMessage(path)).next) == [BeginMessage(CStr(path))];
  }

  lemma WritesAdd(s: State, a: Arg)
    requires Step(s, Add(a)).Accepted?
    ensures Written(Step(s, Add(a)).next) == Written(s) + [Effective(Add(a))]
  {
    var args := s.message.value.args;
    AddsSnoc(args, OnWire(a));
    assert WrittenDraft(Step(s, Add(a)).next) == WrittenDraft(s) + [Effective(Add(a))];
  }

  lemma WritesEndMessage(s: State)
    requires s.message.Some? && Step(s, EndMessage).Accepted?
    ensures Written(Step(s, EndMessage).next) == Written(s) + [EndMessage]
  {
    var next := Step(s, EndMessage).next;
    if s.bundleOpen {
      WrittenAddTop(s.stack, Placed(s));
      CStrTwice(s.pattern);
      assert Linear(Strip(Placed(s))) == WrittenDraft(s) + [EndMessage];
      Associative(WrittenStack(s.stack), WrittenDraft(s), [EndMessage]);
      assert Written(s) == WrittenStack(s.stack) + WrittenDraft(s);
    } else {
      assert WrittenDraft(next) == WrittenDraft(s) + [EndMessage];
    }
  }

  lemma CStrTwice(path: string)
    ensures CStr(CStr(path)) == CStr(path)
  {
  }

  // Whole disciplined runs

  /** The accepted build commands since the last `send` or `clear`, as they take effect. */
  function Transcript(s: State, cmds: seq<Cmd>, acc: seq<Cmd>): seq<Cmd>
    decreases |cmds|
  {
    if cmds == [] then acc else
    match Step(s, cmds[0])
    case Accepted(next) =>
      Transcript(next, cmds[1..],
                 if Empties(cmds[0]) then [] else if Builds(cmds[0]) then acc + [Effective(cmds[0])] else acc)
    case Threw(_) => Transcript(s, cmds[1..], acc)
    case Undefined => acc
  }

  lemma {:induction false} TranscriptIsWritten(s: State, cmds: seq<Cmd>)
    requires Orderly(s) && Disciplined(s, cmds)
    ensures Run(s, cmds).Some? && Orderly(Run(s, cmds).value)
    ensures Written(Run(s, cmds).value) == Transcript(s, cmds, Written(s))
    decreases |cmds|
  {
    if cmds != [] {
      var c := cmds[0];
      OrderlyStep(s, c);
      match Step(s, c)
      case Accepted(next) =>
        if Builds(c) { StepWrites(s, c); } else { StepWritesNothing(s, c); }
        TranscriptIsWritten(next, cmds[1..]);
      case Threw(_) => TranscriptIsWritten(s, cmds[1..]);
    }
  }

  /** Whatever an orderly sender transmits is spelled by the commands that built it. */
  lemma SendSpells(s: State)
    requires Orderly(s) && Step(s, Send).Accepted?
    ensures var sent := Step(s, Send).next.sent;
            |sent| == |s.sent| + 1 && Linear(sent[|s.sent|].packet) == Written(s)
  {
    if s.stack != [] {
      assert s.stack == [s.stack[0]] && s.stack[..0] == [];
      assert WrittenStack(s.stack) == WrittenFrame(s.stack[0]);
      assert Linear(Strip(Close(s.stack[0]))) == WrittenFrame(s.stack[0]) + [EndBundle];
    }
  }

  /**
   The converse of the round trip: in every disciplined run, the packet a successful `send` transmits is the one
   whose linearisation is the list of accepted commands since the last `send` or `clear`.
   */
  lemma TransmitsTranscript(cmds: seq<Cmd>)
    requires Disciplined(INITIAL, cmds)
    ensures Run(INITIAL, cmds).Some?
    ensures var s := Run(INITIAL, cmds).value;
            Step(s, Send).Accepted? ==>
              var sent := Step(s, Send).next.sent;
              && |sent| == |s.sent| + 1
              && forall p :: p == sent[|s.sent|].packet <==> Linear(p) == Transcript(INITIAL, cmds, [])
  {
    TranscriptIsWritten(INITIAL, cmds);
    var s := Run(INITIAL, cmds).value;
    assert Written(INITIAL) == [];
    if Step(s, Send).Accepted? {
      SendSpells(s);
      var packet := Step(s, Send).next.sent[|s.sent|].packet;
      forall p | Linear(p) == Linear(packet) ensures p == packet {
        LinearInjective(p, packet);
      }
    }
  }

  /** A disciplined run loses no allocation and keeps its begins and ends in balance. */
  lemma {:induction false} DisciplinedKeeps(s: State, cmds: seq<Cmd>, t: Tally)
    requires Orderly(s) && Disciplined(s, cmds) && t.reopened == 0 && t.emptyEnds == 0
    ensures Losses(s, cmds) == 0
    ensures Count(s, cmds, t).reopened == 0 && Count(s, cmds, t).emptyEnds == 0
    decreases |cmds|
  {
    if cmds != [] {
      var c := cmds[0];
      OrderlyStep(s, c);
      match Step(s, c)
      case Accepted(next) => DisciplinedKeeps(next, cmds[1..], Counted(s, c, t));
      case Threw(_) => DisciplinedKeeps(s, cmds[1..], t);
    }
  }

  /**
   Ownership in disciplined runs: at every point each allocation is reachable or freed exactly once, and once
   the sender is idle every message and bundle ever allocated has been freed exactly once.
   */
  lemma DisciplinedOwnership(cmds: seq<Cmd>)
    requires Disciplined(INITIAL, cmds)
    ensures Run(INITIAL, cmds).Some?
    ensures var t := Run(INITIAL, cmds).value;
            && (forall x: nat :: x < t.allocs ==> Accounted(t, x) == 1)
            && (Idle(t) ==> |t.freed| == t.allocs && Distinct(t.freed) && forall x: nat :: x < t.allocs ==> x in t.freed)
  {
    TranscriptIsWritten(INITIAL, cmds);
    DisciplinedKeeps(INITIAL, cmds, ZERO);
    NothingLostExactly(cmds);
    if Idle(Run(INITIAL, cmds).value) {
      IdleFreedAll(cmds);
    }
  }

  /** Depth accounting in disciplined runs, with `back()` defined wherever it is needed. */
  lemma DisciplinedDepth(cmds: seq<Cmd>)
    requires Disciplined(INITIAL, cmds)
    ensures Run(INITIAL, cmds).Some? && Safe(Run(INITIAL, cmds).value)
    ensures var t := Count(INITIAL, cmds, ZERO);
            t.begins - t.ends == Depth(Run(INITIAL, cmds).value)
  {
    TranscriptIsWritten(INITIAL, cmds);
    DisciplinedKeeps(INITIAL, cmds, ZERO);
    DepthAccounting(cmds);
  }
}
