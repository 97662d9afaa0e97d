/** Where a message ends up: bundles may be closed and opened while it is being written. */
module SenderPlacement {
  import opened OscTypes
  import opened Packets
  import opened SenderSpec
  import opened SenderRuns

  /** The bundle in progress, by its allocation; `None` outside any. */
  function Home(s: State): Option<nat> {
    if s.bundleOpen && s.stack != [] then Some(s.stack[|s.stack| - 1].id) else None
  }

  /** A later bundle of the stack was allocated later. */
  ghost predicate Ascending(s: State) {
    && (forall i, j :: 0 <= i < j < |s.stack| ==> s.stack[i].id < s.stack[j].id)
    && (forall i :: 0 <= i < |s.stack| ==> s.stack[i].id < s.allocs)
  }

  /** Only the outermost bundle can be closed and stay. */
  ghost predicate Regular(s: State) {
    Ascending(s) && (|s.stack| > 1 ==> s.bundleOpen)
  }

  lemma RegularStep(s: State, c: Cmd)
    requires Regular(s) && Step(s, c).Accepted?
    ensures Regular(Step(s, c).next)
  {
  }

  lemma {:induction false} RegularRun(s: State, cmds: seq<Cmd>)
    requires Regular(s) && Run(s, cmds).Some?
    ensures Regular(Run(s, cmds).value)
    decreases |cmds|
  {
    if cmds != [] {
      match Step(s, cmds[0])
      case Accepted(next) =>
        RegularStep(s, cmds[0]);
        RegularRun(next, cmds[1..]);
      case Threw(_) => RegularRun(s, cmds[1..]);
    }
  }

  // While a message is being written

  /** No accepted command ends the message or clears it away. */
  predicate Within(s: State, body: seq<Cmd>)
    decreases |body|
  {
    body == [] ||
    match Step(s, body[0])
    case Accepted(next) => !body[0].EndMessage? && !Empties(body[0]) && Within(next, body[1..])
    case Threw(_) => Within(s, body[1..])
    case Undefined => false
  }

  /** How many bundles the accepted commands begin and end. */
  function Brackets(s: State, body: seq<Cmd>): nat
    decreases |body|
  {
    if body == [] then 0 else
    match Step(s, body[0])
    case Accepted(next) =>
      (if body[0].BeginBundle? || body[0].BeginBundleAt? || body[0].EndBundle? then 1 else 0) + Brackets(next, body[1..])
    case Threw(_) => Brackets(s, body[1..])
    case Undefined => 0
  }

  /**
   After so many brackets inside a message the sender is back where the message was begun: after none, and, since the
   outermost bundle stays on the stack when it is closed, by going around it.
   */
  predicate Returns(s: State, brackets: nat) {
    if |s.stack| > 1 then brackets == 0
    else if s.stack != [] then brackets % 3 == 0
    else if Orphaned(s) then brackets == 1 || brackets % 3 == 0
    else brackets == 0 || brackets % 3 == 2
  }

  /** A bundle is said to be in progress, and a `clear` has emptied the stack. */
  predicate Orphaned(s: State) {
    s.bundleOpen && s.stack == []
  }

  /** At most two bundles high: orphaned; none; the outermost open; the outermost closed; another one inside it. */
  function Phase(s: State): int {
    if Orphaned(s) then -1 else
    if s.stack == [] then 0 else if |s.stack| > 1 then 3 else if s.bundleOpen then 1 else 2
  }

  /** Every bracket leads to the next phase, and from the last one back to the outermost bundle open. */
  function PhaseAfter(phase: int, brackets: nat): int {
    if phase + brackets <= 0 then phase + brackets
    else 1 + (phase - 1 + brackets) % 3
  }

  /** Brackets inside a message begun in a nested bundle leave that bundle for good. */
  ghost predicate Away(s0: State, s: State, brackets: nat)
    requires |s0.stack| > 1
  {
    && s.stack != [] && s0.allocs <= s.allocs
    && if brackets == 0 then Home(s) == Home(s0) && |s.stack| > 1
       else forall i :: 0 <= i < |s.stack| ==> s.stack[i].id != s0.stack[|s0.stack| - 1].id
  }

  /** Otherwise they go around the outermost bundle, which stays. */
  predicate Around(s0: State, s: State, brackets: nat) {
    && |s.stack| <= 2 && Phase(s) == PhaseAfter(Phase(s0), brackets)
    && (s0.stack != [] ==> s.stack != [] && s.stack[0].id == s0.stack[0].id)
  }

  /** The state `s`, in the middle of a message begun in `s0`. */
  ghost predicate Writing(s0: State, s: State, id: nat, brackets: nat) {
    && Regular(s) && s.messageOpen && s.message.Some? && s.message.value.id == id
    && if |s0.stack| > 1 then Away(s0, s, brackets) else Around(s0, s, brackets)
  }

  lemma AwayStep(s0: State, s: State, brackets: nat, c: Cmd)
    requires Regular(s0) && Regular(s) && |s0.stack| > 1 && Away(s0, s, brackets)
    requires Step(s, c).Accepted? && (c.BeginBundle? || c.EndBundle?)
    ensures Away(s0, Step(s, c).next, brackets + 1)
  {
  }

  lemma NextPhase(phase: int, brackets: nat)
    requires phase <= 3
    ensures var p := PhaseAfter(phase, brackets); p <= 3 && PhaseAfter(phase, brackets + 1) == if p < 3 then p + 1 else 1
  {
  }

  lemma AroundStep(s0: State, s: State, brackets: nat, c: Cmd)
    requires Regular(s0) && Regular(s) && |s0.stack| <= 1 && Around(s0, s, brackets)
    requires Step(s, c).Accepted? && (c.BeginBundle? || c.EndBundle?)
    ensures Around(s0, Step(s, c).next, brackets + 1)
  {
    NextPhase(Phase(s0), brackets);
  }

  lemma WritingStep(s0: State, s: State, id: nat, brackets: nat, c: Cmd)
    requires Regular(s0) && Writing(s0, s, id, brackets)
    requires Step(s, c).Accepted? && !c.EndMessage? && !Empties(c)
    ensures Writing(s0, Step(s, c).next, id, if c.BeginBundle? || c.EndBundle? then brackets + 1 else brackets)
    ensures !c.BeginBundleAt?
  {
    RegularStep(s, c);
    if c.BeginBundle? || c.EndBundle? {
      if |s0.stack| > 1 {
        AwayStep(s0, s, brackets, c);
      } else {
        AroundStep(s0, s, brackets, c);
      }
    } else {
      assert Step(s, c).next.stack == s.stack && Step(s, c).next.bundleOpen == s.bundleOpen;
    }
  }

  lemma {:induction false} WritingRun(s0: State, s: State, id: nat, brackets: nat, body: seq<Cmd>)
    requires Regular(s0) && Writing(s0, s, id, brackets) && Within(s, body)
    ensures Run(s, body).Some? && Writing(s0, Run(s, body).value, id, brackets + Brackets(s, body))
    decreases |body|
  {
    if body != [] {
      var c := body[0];
      match Step(s, c)
      case Accepted(next) =>
        WritingStep(s0, s, id, brackets, c);
        WritingRun(s0, next, id, if c.BeginBundle? || c.EndBundle? then brackets + 1 else brackets, body[1..]);
      case Threw(_) => WritingRun(s0, s, id, brackets, body[1..]);
    }
  }

  /** Message `id` lies at the end of the bundle `home`, or stands alone. */
  predicate Lies(s: State, id: nat, home: Option<nat>) {
    match home
    case None => s.message.Some? && s.message.value.id == id && !s.messageOpen
    case Some(bundle) =>
      s.stack != [] &&
      var top := s.stack[|s.stack| - 1];
      top.id == bundle && top.done != [] && top.done[|top.done| - 1].MessageNode? && top.done[|top.done| - 1].id == id
  }

  lemma WritingHome(s0: State, t: State, id: nat, brackets: nat)
    requires Regular(s0) && Writing(s0, t, id, brackets)
    ensures Home(t) == Home(s0) <==> Returns(s0, brackets)
  {
  }

  lemma WritingEnd(s0: State, t: State, id: nat, brackets: nat)
    requires Regular(s0) && Writing(s0, t, id, brackets)
    ensures Step(t, EndMessage).Undefined? <==> Orphaned(s0) && brackets == 0
    ensures !Step(t, EndMessage).Undefined? ==>
              Step(t, EndMessage).Accepted? && Lies(Step(t, EndMessage).next, id, Home(t))
  {
  }

  /**
   Placement, for every message of every run, whatever bundles are begun and ended while it is written: ending it is
   undefined exactly when it was begun in an orphaned bundle that is still said to be in progress; otherwise it goes
   into the bundle in progress at its end, and that is where it was begun exactly when the number of brackets in
   between leads back.
   */
  lemma PlacedWhereBegun(cmds: seq<Cmd>, path: string, body: seq<Cmd>)
    requires Run(INITIAL, cmds).Some?
    ensures var s := Run(INITIAL, cmds).value;
            var begun := Step(s, BeginMessage(path));
            begun.Accepted? && Within(begun.next, body) ==>
              && Run(begun.next, body).Some?
              && var t, brackets := Run(begun.next, body).value, Brackets(begun.next, body);
                 && (Home(t) == Home(s) <==> Returns(s, brackets))
                 && (Step(t, EndMessage).Undefined? <==> Orphaned(s) && brackets == 0)
                 && (!Step(t, EndMessage).Undefined? ==>
                       Step(t, EndMessage).Accepted? && Lies(Step(t, EndMessage).next, s.allocs, Home(t)))
  {
    RegularRun(INITIAL, cmds);
    var s := Run(INITIAL, cmds).value;
    var begun := Step(s, BeginMessage(path));
    if begun.Accepted? && Within(begun.next, body) {
      RegularStep(s, BeginMessage(path));
      WritingRun(s, begun.next, s.allocs, 0, body);
      WritingHome(s, Run(begun.next, body).value, s.allocs, Brackets(begun.next, body));
      WritingEnd(s, Run(begun.next, body).value, s.allocs, Brackets(begun.next, body));
    }
  }

  // Three runs

  lemma Onward(cmds: seq<Cmd>, s: State, c: Cmd, t: State)
    requires Feed(INITIAL, cmds) == Some(s) && Step(s, c) == Accepted(t)
    ensures Feed(INITIAL, cmds + [c]) == Some(t)
  {
    FeedSnoc(INITIAL, cmds, c);
  }

  lemma TwoElements(x: Node, y: Node)
    ensures StripAll([x, y]) == [Strip(x), Strip(y)]
    ensures IdsAll([x, y]) == Ids(x) + Ids(y)
  {
    assert [x, y][1..] == [y] && [y][1..] == [];
    assert StripAll([y]) == [Strip(y)] && IdsAll([y]) == Ids(y);
  }

  /** Ending an inner bundle inside a message moves the message to the outer one; nothing is lost, only misplaced. */
  lemma Misplaced(a: Address, outer: TimeTag, inner: TimeTag, path: string)
    ensures var t := Feed(INITIAL, [Setup(a)] + [BeginBundleAt(outer)] + [BeginBundleAt(inner)] + [BeginMessage(path)]
                                   + [EndBundle] + [EndMessage] + [EndBundle] + [Send]);
            && t.Some? && t.value.sent == [Transmission(a, Bundle(outer, [Bundle(inner, []), Message(CStr(path), [])]))]
            && t.value.allocs == 3 && t.value.freed == [0, 1, 2]
  {
    FeedOne(INITIAL, Setup(a));
    var c1 := [Setup(a)];
    var s1 := INITIAL.(address := Some(a));
    var s2 := s1.(stack := [Frame(0, outer, [])], allocs := 1, bundleOpen := true);
    assert s1.stack + [Frame(0, outer, [])] == s2.stack;
    Onward(c1, s1, BeginBundleAt(outer), s2);
    var c2 := c1 + [BeginBundleAt(outer)];
    var s3 := s2.(stack := [Frame(0, outer, []), Frame(1, inner, [])], allocs := 2);
    assert s2.stack + [Frame(1, inner, [])] == s3.stack;
    Onward(c2, s2, BeginBundleAt(inner), s3);
    var c3 := c2 + [BeginBundleAt(inner)];
    var s4 := s3.(message := Some(Draft(2, [])), allocs := 3, messageOpen := true, pattern := path);
    Onward(c3, s3, BeginMessage(path), s4);
    MisplacedEnding(a, outer, inner, path, c3 + [BeginMessage(path)]);
  }

  lemma MisplacedEnding(a: Address, outer: TimeTag, inner: TimeTag, path: string, cmds: seq<Cmd>)
    requires Feed(INITIAL, cmds) == Some(State(Some(a), Some(Draft(2, [])), path,
                                               [Frame(0, outer, []), Frame(1, inner, [])], true, true, 3, [], []))
    ensures var t := Feed(INITIAL, cmds + [EndBundle] + [EndMessage] + [EndBundle] + [Send]);
            && t.Some? && t.value.sent == [Transmission(a, Bundle(outer, [Bundle(inner, []), Message(CStr(path), [])]))]
            && t.value.allocs == 3 && t.value.freed == [0, 1, 2]
  {
    var s4 := Feed(INITIAL, cmds).value;
    var closed, message := BundleNode(1, inner, []), MessageNode(2, CStr(path), []);
    var s5 := s4.(stack := [Frame(0, outer, [closed])]);
    assert Pop(s4.stack) == s5.stack by {
      assert s4.stack[..1] == [Frame(0, outer, [])] && [] + [closed] == [closed];
    }
    Onward(cmds, s4, EndBundle, s5);
    var s6 := s5.(stack := [Frame(0, outer, [closed, message])], message := None, pattern := "", messageOpen := false);
    assert AddTop(s5.stack, Placed(s5)) == s6.stack by {
      assert [closed] + [message] == [closed, message];
    }
    Onward(cmds + [EndBundle], s5, EndMessage, s6);
    var s7 := s6.(bundleOpen := false);
    Onward(cmds + [EndBundle] + [EndMessage], s6, EndBundle, s7);
    TwoElements(closed, message);
    assert Ids(Root(s7.stack)) == [0, 1, 2];
    Onward(cmds + [EndBundle] + [EndMessage] + [EndBundle], s7, Send, Step(s7, Send).next);
  }

  /** `beginBundle()` does not mind a message in progress either: it captures a message begun outside. */
  lemma Captured(path: string)
    ensures var t := Feed(INITIAL, [BeginMessage(path)] + [BeginBundle] + [EndMessage]);
            t.Some? && t.value.stack == [Frame(1, IMMEDIATE, [MessageNode(0, CStr(path), [])])]
  {
    FeedOne(INITIAL, BeginMessage(path));
    var s1 := Step(INITIAL, BeginMessage(path)).next;
    var s2 := s1.(stack := [Frame(1, IMMEDIATE, [])], allocs := 2, bundleOpen := true);
    assert s1.stack + [Frame(1, IMMEDIATE, [])] == s2.stack;
    Onward([BeginMessage(path)], s1, BeginBundle, s2);
    var done := [MessageNode(0, CStr(path), [])];
    assert AddTop(s2.stack, Placed(s2)) == [Frame(1, IMMEDIATE, done)] by {
      assert [] + done == done;
    }
    Onward([BeginMessage(path)] + [BeginBundle], s2, EndMessage, Step(s2, EndMessage).next);
  }

  /** Brackets inside a message need not misplace it: around the outermost bundle they lead back. */
  lemma LedBack(tag: TimeTag, path: string)
    ensures var t := Feed(INITIAL, [BeginBundleAt(tag)] + [BeginMessage(path)] + [EndBundle] + [BeginBundle] + [EndBundle] + [EndMessage]);
            t.Some? && Lies(t.value, 1, Some(0))
  {
    FeedOne(INITIAL, BeginBundleAt(tag));
    var c1 := [BeginBundleAt(tag)];
    var s1 := INITIAL.(stack := [Frame(0, tag, [])], allocs := 1, bundleOpen := true);
    assert INITIAL.stack + s1.stack == s1.stack;
    var s2 := s1.(message := Some(Draft(1, [])), allocs := 2, messageOpen := true, pattern := path);
    Onward(c1, s1, BeginMessage(path), s2);
    var c2 := c1 + [BeginMessage(path)];
    var s3 := s2.(bundleOpen := false);
    Onward(c2, s2, EndBundle, s3);
    var c3 := c2 + [EndBundle];
    var s4 := s2.(stack := [Frame(0, tag, []), Frame(2, IMMEDIATE, [])], allocs := 3);
    assert s3.stack + [Frame(2, IMMEDIATE, [])] == s4.stack;
    Onward(c3, s3, BeginBundle, s4);
    var c4 := c3 + [BeginBundle];
    var s5 := Step(s4, EndBundle).next;
    Onward(c4, s4, EndBundle, s5);
    Onward(c4 + [EndBundle], s5, EndMessage, Step(s5, EndMessage).next);
  }
}
