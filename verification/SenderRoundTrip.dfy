/**
 The builder as a parser: every packet tree can be written as a command stream and is sent back, its strings cut at the
 first NUL; unchanged if they hold none.
 */
module SenderRoundTrip {
  import opened OscTypes
  import opened Packets
  import opened SenderSpec

  // Writing a packet as commands

  function Adds(args: seq<Arg>): seq<Cmd> {
    if args == [] then [] else [Add(args[0])] + Adds(args[1..])
  }

  function Linear(p: Packet): seq<Cmd>
    decreases p, 1
  {
    match p
    case Message(path, args) => [BeginMessage(path)] + Adds(args) + [EndMessage]
    case Bundle(tag, elems) => [BeginBundleAt(tag)] + LinearAll(elems) + [EndBundle]
  }

  function LinearAll(ps: seq<Packet>): seq<Cmd>
    decreases ps, 0
  {
    if ps == [] then [] else Linear(ps[0]) + LinearAll(ps[1..])
  }

  // No two packets are written the same way

  lemma {:induction false} AddsPrefix(a: seq<Arg>, b: seq<Arg>, x: seq<Cmd>, y: seq<Cmd>)
    requires Adds(a) + ([EndMessage] + x) == Adds(b) + ([EndMessage] + y)
    ensures a == b && x == y
    decreases |a|
  {
    var l, r := Adds(a) + ([EndMessage] + x), Adds(b) + ([EndMessage] + y);
    assert l[0] == if a == [] then EndMessage else Add(a[0]);
    assert r[0] == if b == [] then EndMessage else Add(b[0]);
    if a == [] {
      assert x == l[1..] && y == r[1..];
    } else {
      assert l[1..] == Adds(a[1..]) + ([EndMessage] + x);
      assert r[1..] == Adds(b[1..]) + ([EndMessage] + y);
      AddsPrefix(a[1..], b[1..], x, y);
      assert a == [a[0]] + a[1..] && b == [b[0]] + b[1..];
    }
  }

  /** A linearisation ends where it ends, whatever follows. */
  lemma {:induction false} LinearPrefix(p: Packet, q: Packet, x: seq<Cmd>, y: seq<Cmd>)
    requires Linear(p) + x == Linear(q) + y
    ensures p == q && x == y
    decreases p, 1
  {
    var l, r := Linear(p) + x, Linear(q) + y;
    assert l[0] == Linear(p)[0] && r[0] == Linear(q)[0];
    match p {
      case Message(_, args) =>
        assert l[1..] == Adds(args) + ([EndMessage] + x);
        assert r[1..] == Adds(q.args) + ([EndMessage] + y);
        AddsPrefix(args, q.args, x, y);
      case Bundle(_, elems) =>
        assert l[1..] == LinearAll(elems) + ([EndBundle] + x);
        assert r[1..] == LinearAll(q.elems) + ([EndBundle] + y);
        LinearAllPrefix(elems, q.elems, x, y);
    }
  }

  lemma {:induction false} LinearAllPrefix(ps: seq<Packet>, qs: seq<Packet>, x: seq<Cmd>, y: seq<Cmd>)
    requires LinearAll(ps) + ([EndBundle] + x) == LinearAll(qs) + ([EndBundle] + y)
    ensures ps == qs && x == y
    decreases ps, 0
  {
    LinearAllFirst(ps, x);
    LinearAllFirst(qs, y);
    if ps == [] {
      assert x == (LinearAll(ps) + ([EndBundle] + x))[1..] && y == (LinearAll(qs) + ([EndBundle] + y))[1..];
    } else {
      Associative(Linear(ps[0]), LinearAll(ps[1..]), [EndBundle] + x);
      Associative(Linear(qs[0]), LinearAll(qs[1..]), [EndBundle] + y);
      LinearPrefix(ps[0], qs[0], LinearAll(ps[1..]) + ([EndBundle] + x), LinearAll(qs[1..]) + ([EndBundle] + y));
      LinearAllPrefix(ps[1..], qs[1..], x, y);
      assert ps == [ps[0]] + ps[1..] && qs == [qs[0]] + qs[1..];
    }
  }

  lemma LinearAllFirst(ps: seq<Packet>, x: seq<Cmd>)
    ensures (LinearAll(ps) + ([EndBundle] + x))[0].EndBundle? <==> ps == []
  {
    if ps != [] {
      assert (LinearAll(ps) + ([EndBundle] + x))[0] == Linear(ps[0])[0];
    }
  }

  /** A packet can be read off its linearisation. */
  lemma LinearInjective(p: Packet, q: Packet)
    requires Linear(p) == Linear(q)
    ensures p == q
  {
    assert Linear(p) + [] == Linear(q) + [];
    LinearPrefix(p, q, [], []);
  }

  // The nodes these commands allocate, numbered in preorder

  function Size(p: Packet): nat
    decreases p, 1
  {
    match p
    case Message(_, _) => 1
    case Bundle(_, elems) => 1 + SizeAll(elems)
  }

  function SizeAll(ps: seq<Packet>): nat
    decreases ps, 0
  {
    if ps == [] then 0 else Size(ps[0]) + SizeAll(ps[1..])
  }

  function Number(p: Packet, k: nat): Node
    decreases p, 1
  {
    match p
    case Message(path, args) => MessageNode(k, CStr(path), OnWireAll(args))
    case Bundle(tag, elems) => BundleNode(k, tag, NumberAll(elems, k + 1))
  }

  function NumberAll(ps: seq<Packet>, k: nat): seq<Node>
    decreases ps, 0
  {
    if ps == [] then [] else [Number(ps[0], k)] + NumberAll(ps[1..], k + Size(ps[0]))
  }

  lemma {:induction false} NumberIsWire(p: Packet, k: nat)
    ensures Strip(Number(p, k)) == Wire(p)
    decreases p, 1
  {
    match p
    case Message(_, _) =>
    case Bundle(_, elems) => NumberAllIsWire(elems, k + 1);
  }

  lemma {:induction false} NumberAllIsWire(ps: seq<Packet>, k: nat)
    ensures StripAll(NumberAll(ps, k)) == WireAll(ps)
    decreases ps, 0
  {
    if ps != [] {
      NumberIsWire(ps[0], k);
      NumberAllIsWire(ps[1..], k + Size(ps[0]));
      assert NumberAll(ps, k)[1..] == NumberAll(ps[1..], k + Size(ps[0]));
    }
  }

  // Feeding the commands

  lemma {:induction false} FeedAdds(s: State, args: seq<Arg>)
    requires s.messageOpen && s.message.Some?
    ensures Feed(s, Adds(args)) ==
            Some(s.(message := Some(s.message.value.(args := s.message.value.args + OnWireAll(args)))))
    decreases args
  {
    var d := s.message.value;
    if args == [] {
      assert d.args + OnWireAll(args) == d.args;
    } else {
      var next := Step(s, Add(args[0])).next;
      assert Adds(args)[1..] == Adds(args[1..]);
      FeedAdds(next, args[1..]);
      Associative(d.args, [OnWire(args[0])], OnWireAll(args[1..]));
    }
  }

  /** The state with a message written and not yet ended. */
  function Drafted(s: State, path: string, args: seq<Arg>): State {
    s.(message := Some(Draft(s.allocs, OnWireAll(args))), allocs := s.allocs + 1, messageOpen := true, pattern := path)
  }

  lemma FeedMessage(s: State, path: string, args: seq<Arg>)
    requires !s.messageOpen
    ensures Feed(s, Linear(Message(path, args))) ==
            match Step(Drafted(s, path, args), EndMessage) case Accepted(t) => Some(t) case _ => None
  {
    var first := Step(s, BeginMessage(path)).next;
    var body := [BeginMessage(path)] + Adds(args);
    assert body[0] == BeginMessage(path) && body[1..] == Adds(args);
    FeedAdds(first, args);
    assert [] + OnWireAll(args) == OnWireAll(args);
    FeedConcat(s, body, [EndMessage]);
    FeedOne(Drafted(s, path, args), EndMessage);
  }

  /** A bundle is open and waits for its next element. */
  predicate Waiting(s: State) {
    !s.messageOpen && s.message.None? && s.pattern == "" && s.bundleOpen && s.stack != []
  }

  predicate Idle(s: State) {
    !s.messageOpen && s.message.None? && s.pattern == "" && !s.bundleOpen && s.stack == []
  }

  function Extended(s: State, ns: seq<Node>, allocs: nat): State
    requires s.stack != []
  {
    var top := |s.stack| - 1;
    s.(stack := s.stack[top := s.stack[top].(done := s.stack[top].done + ns)], allocs := allocs)
  }

  lemma ExtendedTwice(s: State, a: seq<Node>, b: seq<Node>, k: nat, l: nat)
    requires s.stack != []
    ensures Extended(Extended(s, a, k), b, l) == Extended(s, a + b, l)
  {
    var top := |s.stack| - 1;
    Associative(s.stack[top].done, a, b);
    assert Extended(Extended(s, a, k), b, l).stack == Extended(s, a + b, l).stack;
  }

  lemma ExtendedNone(s: State)
    requires s.stack != []
    ensures Extended(s, [], s.allocs) == s
  {
    var top := |s.stack| - 1;
    assert s.stack[top].done + [] == s.stack[top].done;
  }

  /** Ending a bundle that was filled with `ns` hangs it, as one node, into the bundle around it. */
  lemma EndInner(s: State, tag: TimeTag, ns: seq<Node>, allocs: nat)
    requires Waiting(s)
    ensures Step(Extended(Pushed(s, tag), ns, allocs), EndBundle) ==
            Accepted(Extended(s, [BundleNode(s.allocs, tag, ns)], allocs))
  {
    var t := Extended(Pushed(s, tag), ns, allocs);
    assert t.stack[..|s.stack|] == s.stack;
    assert [] + ns == ns;
  }

  lemma {:induction false} FeedPacket(s: State, p: Packet)
    requires Waiting(s)
    ensures Feed(s, Linear(p)) == Some(Extended(s, [Number(p, s.allocs)], s.allocs + Size(p)))
    decreases p, 1
  {
    match p
    case Message(path, args) => FeedMessage(s, path, args);
    case Bundle(tag, elems) =>
      var ns, allocs := NumberAll(elems, s.allocs + 1), s.allocs + 1 + SizeAll(elems);
      FeedBundleBody(s, tag, elems);
      FeedConcat(s, [BeginBundleAt(tag)] + LinearAll(elems), [EndBundle]);
      EndInner(s, tag, ns, allocs);
      FeedOne(Extended(Pushed(s, tag), ns, allocs), EndBundle);
  }

  lemma {:induction false} FeedBundleBody(s: State, tag: TimeTag, elems: seq<Packet>)
    requires Waiting(s) || Idle(s)
    ensures Feed(s, [BeginBundleAt(tag)] + LinearAll(elems)) ==
            Some(Extended(Pushed(s, tag), NumberAll(elems, s.allocs + 1), s.allocs + 1 + SizeAll(elems)))
    decreases elems, 1
  {
    FeedConcat(s, [BeginBundleAt(tag)], LinearAll(elems));
    FeedOne(s, BeginBundleAt(tag));
    FeedAll(Pushed(s, tag), elems);
  }

  lemma {:induction false} FeedAll(s: State, ps: seq<Packet>)
    requires Waiting(s)
    ensures Feed(s, LinearAll(ps)) == Some(Extended(s, NumberAll(ps, s.allocs), s.allocs + SizeAll(ps)))
    decreases ps, 0
  {
    if ps == [] {
      ExtendedNone(s);
    } else {
      var n, k := Number(ps[0], s.allocs), s.allocs + Size(ps[0]);
      FeedPacket(s, ps[0]);
      FeedAll(Extended(s, [n], k), ps[1..]);
      FeedConcat(s, Linear(ps[0]), LinearAll(ps[1..]));
      ExtendedTwice(s, [n], NumberAll(ps[1..], k), k, s.allocs + SizeAll(ps));
    }
  }

  /** The state after a packet has been sent and its memory given back. */
  function Delivered(s: State, p: Packet): State
    requires s.address.Some?
  {
    Transmitted(s, Wire(p)).(allocs := s.allocs + Size(p), freed := s.freed + Ids(Number(p, s.allocs)))
  }

  /**
   Round trip: from an idle sender with an address, writing any packet and sending it raises no exception,
   transmits that packet as C strings carry it, frees all it allocated, and leaves the sender idle.
   */
  lemma RoundTrip(s: State, p: Packet)
    requires Idle(s) && s.address.Some?
    ensures Feed(s, Linear(p) + [Send]) == Some(Delivered(s, p))
    ensures Idle(Delivered(s, p))
    ensures Delivered(s, p).sent == s.sent + [Transmission(s.address.value, p)] <==> NulFree(p)
  {
    WireFaithful(p);
    match p {
      case Message(path, args) => SendMessage(s, path, args);
      case Bundle(tag, elems) => SendBundle(s, tag, elems);
    }
    assert Delivered(s, p).sent[|s.sent|] == Transmission(s.address.value, Wire(p));
  }

  lemma SendMessage(s: State, path: string, args: seq<Arg>)
    requires Idle(s) && s.address.Some?
    ensures Feed(s, Linear(Message(path, args)) + [Send]) == Some(Delivered(s, Message(path, args)))
  {
    var t := Drafted(s, path, args).(messageOpen := false);
    FeedMessage(s, path, args);
    FeedConcat(s, Linear(Message(path, args)), [Send]);
    FeedOne(t, Send);
  }

  lemma EndOuter(s: State, tag: TimeTag, ns: seq<Node>, allocs: nat)
    requires Idle(s)
    ensures Step(Extended(Pushed(s, tag), ns, allocs), EndBundle) ==
            Accepted(s.(stack := [Frame(s.allocs, tag, ns)], allocs := allocs))
  {
    assert [] + ns == ns;
    assert Extended(Pushed(s, tag), ns, allocs).stack == [Frame(s.allocs, tag, ns)];
  }

  lemma SendBundle(s: State, tag: TimeTag, elems: seq<Packet>)
    requires Idle(s) && s.address.Some?
    ensures Feed(s, Linear(Bundle(tag, elems)) + [Send]) == Some(Delivered(s, Bundle(tag, elems)))
  {
    var p := Bundle(tag, elems);
    var ns, allocs := NumberAll(elems, s.allocs + 1), s.allocs + Size(p);
    var closed := s.(stack := [Frame(s.allocs, tag, ns)], allocs := allocs);
    assert Feed(s, Linear(p)) == Some(closed) by {
      FeedBundleBody(s, tag, elems);
      FeedConcat(s, [BeginBundleAt(tag)] + LinearAll(elems), [EndBundle]);
      FeedOne(Extended(Pushed(s, tag), ns, allocs), EndBundle);
      EndOuter(s, tag, ns, allocs);
    }
    FeedConcat(s, Linear(p), [Send]);
    FeedOne(closed, Send);
    assert Step(closed, Send) == Accepted(Delivered(s, p)) by {
      assert Root(closed.stack) == Number(p, s.allocs);
      NumberIsWire(p, s.allocs);
    }
  }

  /** What is written goes to the address of the last `setup`. */
  lemma SetupRoundTrip(s: State, a: Address, p: Packet)
    requires Idle(s)
    ensures var t := Feed(s, [Setup(a)] + (Linear(p) + [Send]));
            t.Some? && Idle(t.value) && t.value.sent == s.sent + [Transmission(a, Wire(p))]
  {
    var ready := s.(address := Some(a));
    FeedOne(s, Setup(a));
    FeedConcat(s, [Setup(a)], Linear(p) + [Send]);
    RoundTrip(ready, p);
  }

  function Script(ps: seq<Packet>): seq<Cmd> {
    if ps == [] then [] else Linear(ps[0]) + [Send] + Script(ps[1..])
  }

  function Transmissions(to: Address, ps: seq<Packet>): seq<Transmission> {
    if ps == [] then [] else [Transmission(to, Wire(ps[0]))] + Transmissions(to, ps[1..])
  }

  /** One sender carries any number of packets, in order, one after the other. */
  lemma {:induction false} RoundTrips(s: State, ps: seq<Packet>)
    requires Idle(s) && s.address.Some?
    ensures Feed(s, Script(ps)).Some? && Idle(Feed(s, Script(ps)).value)
    ensures Feed(s, Script(ps)).value.sent == s.sent + Transmissions(s.address.value, ps)
    decreases ps
  {
    if ps != [] {
      var t := Delivered(s, ps[0]);
      RoundTrip(s, ps[0]);
      RoundTrips(t, ps[1..]);
      FeedConcat(s, Linear(ps[0]) + [Send], Script(ps[1..]));
      Associative(s.sent, [Transmission(s.address.value, Wire(ps[0]))], Transmissions(s.address.value, ps[1..]));
    }
  }
}
