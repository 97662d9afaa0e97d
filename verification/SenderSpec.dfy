/**
 The packet builder `OscSender` as a command-driven state machine over values.

 The bundle stack is kept as a zipper: a frame holds the finished elements of one open bundle, and the
 bundle of the next frame is its last, unfinished element. `Root` closes the zipper into the tree that
 hangs below the bottom of the stack.
 */
module SenderSpec {
  import opened OscTypes
  import opened Packets

  datatype Address = Address(host: string, port: Word)

  /** The calls a client can make; every `add*` call is an `Add`, every stream operator is one of these. */
  datatype Cmd =
    | Setup(address: Address)
    | Send
    | Clear
    | BeginMessage(path: string)
    | Add(arg: Arg)
    | EndMessage
    | BeginBundle
    | BeginBundleAt(tag: TimeTag)
    | EndBundle

  datatype Exception = SendException | BundleNotInProgress | MessageInProgress | MessageNotInProgress

  /** The message `m_message` points to. */
  datatype Draft = Draft(id: nat, args: seq<Arg>)

  datatype Frame = Frame(id: nat, tag: TimeTag, done: seq<Node>)

  datatype Transmission = Transmission(to: Address, packet: Packet)

  datatype State = State(
    address: Option<Address>,
    message: Option<Draft>,
    pattern: string,
    stack: seq<Frame>,
    messageOpen: bool,
    bundleOpen: bool,
    allocs: nat,               // messages and bundles allocated so far; serial numbers are below it
    freed: seq<nat>,           // serial numbers handed back to liblo, oldest first
    sent: seq<Transmission>)

  /** A command is carried out, throws, or (`Undefined`) passes NULL to liblo or calls `back()` on an empty stack. */
  datatype Outcome = Accepted(next: State) | Threw(e: Exception) | Undefined

  const INITIAL: State := State(None, None, "", [], false, false, 0, [], [])

  // The zipper

  function Close(f: Frame): Node {
    BundleNode(f.id, f.tag, f.done)
  }

  function AddTop(stack: seq<Frame>, n: Node): (r: seq<Frame>)
    requires stack != []
  {
    var top := |stack| - 1;
    stack[top := stack[top].(done := stack[top].done + [n])]
  }

  function Pop(stack: seq<Frame>): (r: seq<Frame>)
    requires |stack| > 1
  {
    AddTop(stack[..|stack| - 1], Close(stack[|stack| - 1]))
  }

  function Root(stack: seq<Frame>): Node
    requires stack != []
    decreases |stack|
  {
    if |stack| == 1 then Close(stack[0]) else Root(Pop(stack))
  }

  // One command

  function Cleared(s: State): State {
    var freed :=
      if s.stack != [] then Ids(Root(s.stack))
      else if s.message.Some? then [s.message.value.id]
      else [];
    s.(stack := [], message := None, pattern := "", freed := s.freed + freed)
  }

  function Transmitted(s: State, p: Packet): State
    requires s.address.Some?
  {
    s.(sent := s.sent + [Transmission(s.address.value, p)])
  }

  function Pushed(s: State, tag: TimeTag): State {
    s.(stack := s.stack + [Frame(s.allocs, tag, [])], allocs := s.allocs + 1, bundleOpen := true)
  }

  function Step(s: State, c: Cmd): Outcome {
    match c
    case Setup(a) => Accepted(s.(address := Some(a)))
    case Send =>
      if s.address.None? || s.bundleOpen || s.messageOpen then Threw(SendException)
      else if s.stack != [] then Accepted(Cleared(Transmitted(s, Strip(Root(s.stack)))))
      else if s.message.None? then Threw(SendException)
      else Accepted(Cleared(Transmitted(s, Message(CStr(s.pattern), s.message.value.args))))
    case Clear => Accepted(Cleared(s))
    case BeginMessage(path) =>
      if s.messageOpen then Threw(MessageInProgress)
      else Accepted(s.(message := Some(Draft(s.allocs, [])), allocs := s.allocs + 1,
                       messageOpen := true, pattern := path))
    case Add(a) =>
      if !s.messageOpen then Threw(MessageNotInProgress)
      else if s.message.None? then Undefined
      else Accepted(s.(message := Some(s.message.value.(args := s.message.value.args + [OnWire(a)]))))
    case EndMessage =>
      if !s.messageOpen then Threw(MessageNotInProgress)
      else if !s.bundleOpen then Accepted(s.(messageOpen := false))
      else if s.stack == [] || s.message.None? then Undefined
      else Accepted(s.(stack := AddTop(s.stack, Placed(s)), message := None, pattern := "", messageOpen := false))
    case BeginBundle =>
      if s.bundleOpen then Threw(MessageInProgress) else Accepted(Pushed(s, IMMEDIATE))
    case BeginBundleAt(tag) =>
      if s.messageOpen then Threw(MessageInProgress) else Accepted(Pushed(s, tag))
    case EndBundle =>
      if !s.bundleOpen then Threw(BundleNotInProgress)
      else if |s.stack| > 1 then Accepted(s.(stack := Pop(s.stack)))
      else Accepted(s.(bundleOpen := false))
  }

  /** The node `endMessage` hangs into the current bundle. */
  function Placed(s: State): Node
    requires s.message.Some?
  {
    MessageNode(s.message.value.id, CStr(s.pattern), s.message.value.args)
  }

  // Whole runs

  /** A client that catches every exception and goes on; `None` once behaviour is undefined. */
  function Run(s: State, cmds: seq<Cmd>): Option<State>
    decreases |cmds|
  {
    if cmds == [] then Some(s) else
    match Step(s, cmds[0])
    case Accepted(next) => Run(next, cmds[1..])
    case Threw(_) => Run(s, cmds[1..])
    case Undefined => None
  }

  /** A client that gives up on the first exception. */
  function Feed(s: State, cmds: seq<Cmd>): Option<State>
    decreases |cmds|
  {
    if cmds == [] then Some(s) else
    match Step(s, cmds[0])
    case Accepted(next) => Feed(next, cmds[1..])
    case _ => None
  }

  lemma {:induction false} FeedConcat(s: State, a: seq<Cmd>, b: seq<Cmd>)
    ensures Feed(s, a + b) == match Feed(s, a) case Some(t) => Feed(t, b) case None => None
    decreases |a|
  {
    if a == [] {
      assert a + b == b;
    } else {
      assert (a + b)[0] == a[0] && (a + b)[1..] == a[1..] + b;
      match Step(s, a[0])
      case Accepted(next) => FeedConcat(next, a[1..], b);
      case _ =>
    }
  }

  lemma FeedOne(s: State, c: Cmd)
    ensures Feed(s, [c]) == match Step(s, c) case Accepted(t) => Some(t) case _ => None
  {
    assert [c][1..] == [];
  }

  lemma FeedSnoc(s: State, a: seq<Cmd>, c: Cmd)
    requires Feed(s, a).Some?
    ensures Feed(s, a + [c]) == match Step(Feed(s, a).value, c) case Accepted(t) => Some(t) case _ => None
  {
    FeedConcat(s, a, [c]);
    FeedOne(Feed(s, a).value, c);
  }

  lemma {:induction false} FeedIsRun(s: State, cmds: seq<Cmd>)
    requires Feed(s, cmds).Some?
    ensures Run(s, cmds) == Feed(s, cmds)
    decreases |cmds|
  {
    if cmds != [] {
      FeedIsRun(Step(s, cmds[0]).next, cmds[1..]);
    }
  }

  // Measures of the zipper agree with the tree it denotes

  function FrameOutline(f: Frame, depth: nat): seq<Entry> {
    [Entry(depth, Open(f.tag))] + OutlineAll(StripAll(f.done), depth + 1)
  }

  function StackOutline(stack: seq<Frame>): seq<Entry>
    decreases |stack|
  {
    if stack == [] then [] else
    var top := |stack| - 1;
    StackOutline(stack[..top]) + FrameOutline(stack[top], top)
  }

  function StackIds(stack: seq<Frame>): seq<nat>
    decreases |stack|
  {
    if stack == [] then [] else
    var top := |stack| - 1;
    StackIds(stack[..top]) + Ids(Close(stack[top]))
  }

  lemma FrameOutlineGrows(f: Frame, n: Node, depth: nat)
    ensures FrameOutline(f.(done := f.done + [n]), depth) == FrameOutline(f, depth) + Outline(Strip(n), depth + 1)
  {
    StripAllConcat(f.done, [n]);
    assert StripAll([n]) == [Strip(n)];
    OutlineAllConcat(StripAll(f.done), [Strip(n)], depth + 1);
    assert OutlineAll([Strip(n)], depth + 1) == Outline(Strip(n), depth + 1) + [];
  }

  lemma FrameIdsGrow(f: Frame, n: Node)
    ensures Ids(Close(f.(done := f.done + [n]))) == Ids(Close(f)) + Ids(n)
  {
    IdsAllConcat(f.done, [n]);
    assert IdsAll([n]) == Ids(n) + [];
  }

  lemma AddTopMeasures(stack: seq<Frame>, n: Node)
    requires stack != []
    ensures StackOutline(AddTop(stack, n)) == StackOutline(stack) + Outline(Strip(n), |stack|)
    ensures StackIds(AddTop(stack, n)) == StackIds(stack) + Ids(n)
  {
    var top := |stack| - 1;
    assert AddTop(stack, n)[..top] == stack[..top];
    FrameOutlineGrows(stack[top], n, top);
    FrameIdsGrow(stack[top], n);
    Associative(StackOutline(stack[..top]), FrameOutline(stack[top], top), Outline(Strip(n), |stack|));
    Associative(StackIds(stack[..top]), Ids(Close(stack[top])), Ids(n));
  }

  lemma PushMeasures(stack: seq<Frame>, f: Frame)
    requires f.done == []
    ensures StackOutline(stack + [f]) == StackOutline(stack) + [Entry(|stack|, Open(f.tag))]
    ensures StackIds(stack + [f]) == StackIds(stack) + [f.id]
  {
    var st, top := stack + [f], |stack|;
    assert st[..top] == stack && st[top] == f;
    assert StackOutline(st) == StackOutline(stack) + FrameOutline(f, top);
    assert FrameOutline(f, top) == [Entry(top, Open(f.tag))];
    assert StackIds(st) == StackIds(stack) + Ids(Close(f));
    assert Ids(Close(f)) == [f.id];
  }

  lemma PopMeasures(stack: seq<Frame>)
    requires |stack| > 1
    ensures StackOutline(Pop(stack)) == StackOutline(stack)
    ensures StackIds(Pop(stack)) == StackIds(stack)
  {
    var top := |stack| - 1;
    AddTopMeasures(stack[..top], Close(stack[top]));
  }

  lemma {:induction false} RootMeasures(stack: seq<Frame>)
    requires stack != []
    ensures Outline(Strip(Root(stack)), 0) == StackOutline(stack)
    ensures Ids(Root(stack)) == StackIds(stack)
    decreases |stack|
  {
    if |stack| == 1 {
      assert stack[..0] == [];
    } else {
      PopMeasures(stack);
      RootMeasures(Pop(stack));
    }
  }

  // The tree read from the bottom of the stack

  /** The bundle of frame `k` with everything below it. */
  function RootFrom(stack: seq<Frame>, k: nat): Node
    requires k < |stack|
    decreases |stack| - k
  {
    var f := stack[k];
    BundleNode(f.id, f.tag, if k == |stack| - 1 then f.done else f.done + [RootFrom(stack, k + 1)])
  }

  lemma {:induction false} PopRootFrom(stack: seq<Frame>, k: nat)
    requires k < |stack| - 1
    ensures RootFrom(Pop(stack), k) == RootFrom(stack, k)
    decreases |stack| - k
  {
    var t, f, last := Pop(stack), stack[k], |stack| - 1;
    if k < last - 1 {
      PopRootFrom(stack, k + 1);
      assert t[k] == f;
      assert RootFrom(t, k) == BundleNode(f.id, f.tag, f.done + [RootFrom(t, k + 1)]);
    } else {
      var n := Close(stack[last]);
      assert t[k] == f.(done := f.done + [n]);
      assert RootFrom(t, k) == BundleNode(f.id, f.tag, f.done + [n]);
      assert RootFrom(stack, last) == n;
    }
  }

  lemma {:induction false} RootIsRootFrom(stack: seq<Frame>)
    requires stack != []
    ensures Root(stack) == RootFrom(stack, 0)
    decreases |stack|
  {
    if |stack| > 1 {
      PopRootFrom(stack, 0);
      RootIsRootFrom(Pop(stack));
    }
  }
}
