/** The receiver: its life cycle, its own vector of objects, and dispatch of messages to them. */
module OscReceivers {
  import opened OscTypes
  import opened ObjectGraph
  import opened ObjectLists
  import opened Dispatch
  import opened DispatchLoop
  import opened OscObjects
  import opened ReceivedMessages
  import opened ReceiverSpec

  /**
   What a handler answers to a message, given all messages taken before and who was called for them, and the handlers
   this one was already offered to.
   */
  type Answers = (seq<Taken>, ReceivedMessage, seq<Handler>, Handler) -> bool

  class OscReceiver {
    var serverThread: bool                // a liblo server handle is held
    var isMulticast: bool
    var isRunning: bool
    var ignoreMessages: bool
    var objects: seq<OscObject?>
    var pending: seq<ReceivedMessage>     // liblo's side: messages waiting at the socket
    var taken: seq<Taken>                 // the handlers' side: what they have seen

    ghost function View(): State
      reads this
    {
      State(serverThread, isMulticast, isRunning, ignoreMessages, pending, taken)
    }

    /** The attached objects belong to the program `w`, whose graph is acyclic. */
    ghost predicate Ready(w: map<nat, OscObject>)
      reads this`objects, w.Values
    {
      && World(w) && Belong(w, objects) && Dispatchable(GraphOf(w))
      && forall c :: c in NonNull(SlotsOf(objects)) ==> c in w
    }

    ghost function Reacting(answers: Answers, w: map<nat, OscObject>): React
      requires Ready(w)
      reads this`objects, w.Values
    {
      Reaction(answers, Clean(GraphOf(w)), NonNull(SlotsOf(objects)))
    }

    /** The last message taken. */
    ghost predicate TakenAs(m: ReceivedMessage, byThread: bool)
      reads this`taken
    {
      taken != [] && taken[|taken| - 1].message == m && taken[|taken| - 1].byThread == byThread
    }

    constructor ()
      ensures View() == INITIAL && objects == []
    {
      serverThread, isMulticast, isRunning, ignoreMessages := false, false, false, false;
      objects, pending, taken := [], [], [];
    }

    /** `created` is what `lo_server_thread_new` returns. */
    method Setup(created: bool) returns (ok: bool)
      modifies this
      ensures View() == Control(old(View()), Event.Setup(created)) && objects == old(objects)
      ensures ok == SetUp(old(View()), Event.Setup(created))
    {
      if serverThread {
        return false;
      }
      serverThread := created;
      if !serverThread {
        return false;
      }
      isMulticast := false;
      return true;
    }

    method SetupMulticast(created: bool) returns (ok: bool)
      modifies this
      ensures View() == Control(old(View()), Event.SetupMulticast(created)) && objects == old(objects)
      ensures ok == SetUp(old(View()), Event.SetupMulticast(created))
    {
      if serverThread {
        return false;
      }
      serverThread := created;
      if !serverThread {
        return false;
      }
      isMulticast := true;
      return true;
    }

    method Clear()
      modifies this
      ensures View() == Control(old(View()), Event.Clear) && objects == old(objects)
    {
      Stop();
      if serverThread {
        serverThread := false;
      }
      pending := [];
      isMulticast := false;
    }

    method Start()
      modifies this
      ensures View() == Control(old(View()), Event.Start) && objects == old(objects)
    {
      if !serverThread {
        return;
      }
      isRunning := true;
    }

    method Stop()
      modifies this
      ensures View() == Control(old(View()), Event.Stop) && objects == old(objects)
    {
      if !serverThread {
        return;
      }
      isRunning := false;
      ignoreMessages := false;
    }

    method IgnoreMessages(yesno: bool)
      modifies this
      ensures View() == Control(old(View()), Ignore(yesno)) && objects == old(objects)
    {
      ignoreMessages := yesno;
    }

    /** liblo's side: a message reaches the socket. */
    method Arrive(m: ReceivedMessage)
      modifies this
      ensures View() == Control(old(View()), Event.Arrive(m)) && objects == old(objects)
    {
      if serverThread {
        pending := pending + [m];
      }
    }

    method AddOscObject(child: OscObject?)
      modifies this`objects
      ensures SlotsOf(objects) == Added(old(SlotsOf(objects)), Name(child))
      ensures objects == if child == null then old(objects) else old(objects) + [child]
    {
      if child == null {
        return;
      }
      objects := objects + [child];
    }

    method RemoveOscObject(child: OscObject?, ghost w: map<nat, OscObject>)
      requires Belong(w, objects) && (child != null ==> child.id in w && w[child.id] == child)
      modifies this`objects
      ensures SlotsOf(objects) == Removed(old(SlotsOf(objects)), Name(child))
      ensures child == null || child !in old(objects) ==> objects == old(objects)
      ensures Belong(w, objects)
    {
      if child == null {
        return;
      }
      ghost var xs := SlotsOf(objects);
      var i := Find(objects, child, w);
      RemovedAt(xs, Name(child), i);
      if i < |objects| {
        objects := objects[..i] + objects[i + 1..];
        assert SlotsOf(objects) == xs[..i] + xs[i + 1..];
      }
    }

    method RemoveAllOscObjects()
      modifies this`objects
      ensures objects == []
    {
      objects := [];
    }

    // Dispatch

    /** One iteration on a live entry: hands the message on to the `i`-th attached object. */
    method Ask(i: nat, decide: Decide, calls: seq<Handler>, ghost w: map<nat, OscObject>, ghost g: Graph, ghost was: Slots)
      returns (handled: bool, calls': seq<Handler>)
      requires World(w) && Belong(w, objects) && i < |objects| && objects[i] != null
      requires Receiving(g, GraphOf(w), was, SlotsOf(objects), calls, decide, i)
      modifies w.Values
      ensures World(w) && Dispatchable(g) && forall c :: c in NonNull(was) ==> c in g
      ensures if handled then Received(g, GraphOf(w), was, SlotsOf(objects), calls', true, decide)
              else Receiving(g, GraphOf(w), was, SlotsOf(objects), calls', decide, i + 1)
    {
      ghost var b := GraphOf(w);
      ReceivingKid(g, b, was, SlotsOf(objects), calls, decide, i);
      handled, calls' := objects[i].ProcessOsc(decide, calls, w);
      if handled {
        ReceivingTaken(g, b, GraphOf(w), was, SlotsOf(objects), calls, calls', decide, i);
      } else {
        ReceivingRefused(g, b, GraphOf(w), was, SlotsOf(objects), calls, calls', decide, i);
      }
    }

    /** `m_objects.erase(iter)` */
    method EraseAt(i: nat, ghost w: map<nat, OscObject>)
      requires Belong(w, objects) && i < |objects|
      modifies this`objects
      ensures Belong(w, objects) && GraphOf(w) == old(GraphOf(w))
      ensures |objects| == |old(objects)| - 1
      ensures SlotsOf(objects) == old(SlotsOf(objects))[..i] + old(SlotsOf(objects))[i + 1..]
    {
      SlotsErased(objects, i);
      objects := objects[..i] + objects[i + 1..];
    }

    /** One iteration on a NULL entry. */
    method Erase(i: nat, decide: Decide, calls: seq<Handler>, ghost w: map<nat, OscObject>, ghost g: Graph, ghost was: Slots)
      requires Belong(w, objects) && i < |objects| && objects[i] == null
      requires Receiving(g, GraphOf(w), was, SlotsOf(objects), calls, decide, i)
      modifies this`objects
      ensures Belong(w, objects) && |objects| == |old(objects)| - 1
      ensures Receiving(g, GraphOf(w), was, SlotsOf(objects), calls, decide, i)
    {
      ReceivingErased(g, GraphOf(w), was, SlotsOf(objects), calls, decide, i);
      EraseAt(i, w);
    }

    /** Offers a message to the attached objects and then to the receiver's own handler, unless messages are ignored. */
    method ProcessMessage(decide: Decide, ghost w: map<nat, OscObject>) returns (handled: bool, calls: seq<Handler>)
      requires Ready(w)
      modifies this`objects, w.Values
      ensures World(w) && Belong(w, objects)
      ensures ignoreMessages ==> !handled && calls == [] && objects == old(objects) && GraphOf(w) == old(GraphOf(w))
      ensures !ignoreMessages ==>
                Received(old(GraphOf(w)), GraphOf(w), old(SlotsOf(objects)), SlotsOf(objects), calls, handled, decide)
    {
      if ignoreMessages {
        return false, [];
      }
      handled, calls := CallObjects(decide, w);
      if !handled {
        handled := decide(calls, Receiver);
        calls := calls + [Receiver];
      }
    }

    method CallObjects(decide: Decide, ghost w: map<nat, OscObject>) returns (handled: bool, calls: seq<Handler>)
      requires Ready(w)
      modifies this`objects, w.Values
      ensures World(w) && Belong(w, objects)
      ensures Received(old(GraphOf(w)), GraphOf(w), old(SlotsOf(objects)), SlotsOf(objects),
                       if handled then calls else calls + [Receiver], handled || decide(calls, Receiver), decide)
    {
      ghost var g, was := GraphOf(w), SlotsOf(objects);
      ReceivingStarts(g, was, decide);
      calls := [];
      var i := 0;
      while i < |objects|
        invariant World(w) && Belong(w, objects) && i <= |objects|
        invariant Receiving(g, GraphOf(w), was, SlotsOf(objects), calls, decide, i)
        decreases |objects| - i
      {
        if objects[i] != null {
          handled, calls := Ask(i, decide, calls, w, g, was);
          if handled {
            return;
          }
          i := i + 1;
        } else {
          Erase(i, decide, calls, w, g, was);
        }
      }
      ReceivingEnded(g, GraphOf(w), was, SlotsOf(objects), calls, decide, i);
      handled := false;
    }

    /** Takes the oldest waiting message, as liblo's callback does. */
    method TakeNext(answers: Answers, byThread: bool, ghost w: map<nat, OscObject>)
      requires Ready(w) && pending != []
      modifies this, w.Values
      ensures Ready(w) && Reacting(answers, w) == old(Reacting(answers, w))
      ensures View() == Take(old(View()), byThread, old(Reacting(answers, w)))
      ensures Handed(answers, old(taken), old(pending)[0], old(ignoreMessages), old(GraphOf(w)), GraphOf(w), old(SlotsOf(objects)), SlotsOf(objects))
      ensures Tidied(old(GraphOf(w)), GraphOf(w)) && Swept(old(SlotsOf(objects)), SlotsOf(objects))
    {
      var m := pending[0];
      var calls := Hand(m, answers, w);
      Record(m, byThread, calls, w);
    }

    /** liblo's side: the message is off the socket. */
    method Record(m: ReceivedMessage, byThread: bool, calls: seq<Handler>, ghost w: map<nat, OscObject>)
      requires World(w) && pending != []
      modifies this`pending, this`taken
      ensures World(w) && GraphOf(w) == old(GraphOf(w))
      ensures pending == old(pending)[1..] && taken == old(taken) + [Taken(m, byThread, calls)]
    {
      pending, taken := pending[1..], taken + [Taken(m, byThread, calls)];
      assert forall x :: x in w ==> w[x].objects == old(w[x].objects);
    }

    /** Dispatches one message and leaves the rest of the receiver alone. */
    method Hand(m: ReceivedMessage, answers: Answers, ghost w: map<nat, OscObject>) returns (calls: seq<Handler>)
      requires Ready(w)
      modifies this`objects, w.Values
      ensures Ready(w) && Reacting(answers, w) == old(Reacting(answers, w))
      ensures calls == if ignoreMessages then [] else old(Reacting(answers, w))(taken, m)
      ensures Handed(answers, taken, m, ignoreMessages, old(GraphOf(w)), GraphOf(w), old(SlotsOf(objects)), SlotsOf(objects))
      ensures Tidied(old(GraphOf(w)), GraphOf(w)) && Swept(old(SlotsOf(objects)), SlotsOf(objects))
    {
      ghost var g, was := GraphOf(w), SlotsOf(objects);
      var handled;
      handled, calls := ProcessMessage(Answer(answers, taken, m), w);
      if !ignoreMessages {
        ReceivedIsHanded(answers, taken, m, g, GraphOf(w), was, SlotsOf(objects), calls, handled);
      }
      HandedFacts(answers, taken, m, ignoreMessages, g, GraphOf(w), was, SlotsOf(objects));
    }

    /** Polls once; `size` is what liblo reports of the message, if it finds one. */
    method HandleMessages(size: nat, answers: Answers, ghost w: map<nat, OscObject>) returns (bytes: nat)
      requires Ready(w)
      modifies this, w.Values
      ensures Ready(w) && Reacting(answers, w) == old(Reacting(answers, w))
      ensures View() == Step(old(View()), Event.Poll(size), old(Reacting(answers, w)))
      ensures bytes == if old(serverThread) && !old(isRunning) && old(pending) != [] then size else 0
      ensures if old(serverThread) && !old(isRunning) && old(pending) != [] then
                pending == old(pending)[1..] && |taken| == |old(taken)| + 1 && old(taken) <= taken && TakenAs(old(pending)[0], false)
              else pending == old(pending) && taken == old(taken)
      ensures if old(serverThread) && !old(isRunning) && old(pending) != [] then
                Handed(answers, old(taken), old(pending)[0], old(ignoreMessages), old(GraphOf(w)), GraphOf(w), old(SlotsOf(objects)), SlotsOf(objects))
              else objects == old(objects) && GraphOf(w) == old(GraphOf(w))
      ensures Tidied(old(GraphOf(w)), GraphOf(w)) && Swept(old(SlotsOf(objects)), SlotsOf(objects))
    {
      if !serverThread {
        return 0;
      }
      if isRunning {
        return 0;
      }
      if pending == [] {
        return 0;
      }
      TakeNext(answers, false, w);
      return size;
    }

    /** The server thread takes the next message, if it runs. */
    method ThreadTakesNext(answers: Answers, ghost w: map<nat, OscObject>)
      requires Ready(w)
      modifies this, w.Values
      ensures Ready(w) && Reacting(answers, w) == old(Reacting(answers, w))
      ensures View() == Step(old(View()), Event.ThreadTakes, old(Reacting(answers, w)))
      ensures if old(isRunning) && old(pending) != [] then
                pending == old(pending)[1..] && |taken| == |old(taken)| + 1 && old(taken) <= taken && TakenAs(old(pending)[0], true)
              else pending == old(pending) && taken == old(taken)
      ensures if old(isRunning) && old(pending) != [] then
                Handed(answers, old(taken), old(pending)[0], old(ignoreMessages), old(GraphOf(w)), GraphOf(w), old(SlotsOf(objects)), SlotsOf(objects))
              else objects == old(objects) && GraphOf(w) == old(GraphOf(w))
      ensures Tidied(old(GraphOf(w)), GraphOf(w)) && Swept(old(SlotsOf(objects)), SlotsOf(objects))
    {
      if isRunning && pending != [] {
        TakeNext(answers, true, w);
      }
    }

    // Whole runs

    method PerformControl(e: Event)
      requires !Takes(e)
      modifies this
      ensures View() == Control(old(View()), e) && objects == old(objects)
    {
      match e
      case Setup(created) => var _ := Setup(created);
      case SetupMulticast(created) => var _ := SetupMulticast(created);
      case Start => Start();
      case Stop => Stop();
      case Clear => Clear();
      case Ignore(yesno) => IgnoreMessages(yesno);
      case Arrive(m) => Arrive(m);
    }

    method Perform(e: Event, answers: Answers, ghost w: map<nat, OscObject>)
      requires Ready(w)
      modifies this, w.Values
      ensures Ready(w) && Reacting(answers, w) == old(Reacting(answers, w))
      ensures View() == Step(old(View()), e, old(Reacting(answers, w)))
      ensures Tidied(old(GraphOf(w)), GraphOf(w)) && Swept(old(SlotsOf(objects)), SlotsOf(objects))
    {
      if e.Poll? {
        var _ := HandleMessages(e.bytes, answers, w);
      } else if e.ThreadTakes? {
        ThreadTakesNext(answers, w);
      } else {
        PerformControl(e);
      }
    }

    /** For every interleaving the receiver ends in the state of `Run`, its vectors short of NULLs at most. */
    method Replay(es: seq<Event>, answers: Answers, ghost w: map<nat, OscObject>)
      requires Ready(w)
      modifies this, w.Values
      ensures Ready(w) && Reacting(answers, w) == old(Reacting(answers, w))
      ensures View() == Run(old(View()), es, old(Reacting(answers, w)))
      ensures Tidied(old(GraphOf(w)), GraphOf(w)) && Swept(old(SlotsOf(objects)), SlotsOf(objects))
    {
      ghost var react := Reacting(answers, w);
      var i := 0;
      while i < |es|
        invariant i <= |es| && Ready(w) && Reacting(answers, w) == react
        invariant Run(View(), es[i..], react) == Run(old(View()), es, react)
        invariant Tidied(old(GraphOf(w)), GraphOf(w)) && Swept(old(SlotsOf(objects)), SlotsOf(objects))
      {
        ghost var b, xs := GraphOf(w), SlotsOf(objects);
        assert es[i..][0] == es[i] && es[i..][1..] == es[i + 1..];
        Perform(es[i], answers, w);
        TidiedTrans(old(GraphOf(w)), b, GraphOf(w));
        SweptTrans(old(SlotsOf(objects)), xs, SlotsOf(objects));
        i := i + 1;
      }
    }
  }

  /** The answers to one message. */
  function Answer(answers: Answers, past: seq<Taken>, m: ReceivedMessage): Decide {
    (h, x) => answers(past, m, h, x)
  }

  /** What is called for a message: the attached objects in post-order, then the receiver, up to the first that accepts. */
  ghost function Reaction(answers: Answers, n: Net, kids: seq<nat>): React
    requires Closed(n) && Acyclic(n) && forall c :: c in kids ==> c in n
  {
    var order := Forest(n, kids) + [Receiver];
    (past, m) => Calls(order, [], Answer(answers, past, m))
  }

  /** The graph and the receiver's vector after one message: as dispatch leaves them, or untouched if it was ignored. */
  ghost predicate Handed(answers: Answers, past: seq<Taken>, m: ReceivedMessage, ignored: bool, g: Graph, a: Graph, was: Slots, xs: Slots)
    requires Dispatchable(g) && forall c :: c in NonNull(was) ==> c in g
  {
    var order, decide := Forest(Clean(g), NonNull(was)) + [Receiver], Answer(answers, past, m);
    if ignored then a == g && xs == was
    else Received(g, a, was, xs, Calls(order, [], decide), Handled(order, [], decide), decide)
  }

  lemma ReceivedIsHanded(answers: Answers, past: seq<Taken>, m: ReceivedMessage, g: Graph, a: Graph, was: Slots, xs: Slots,
                         calls: seq<Handler>, handled: bool)
    requires Dispatchable(g) && forall c :: c in NonNull(was) ==> c in g
    requires Received(g, a, was, xs, calls, handled, Answer(answers, past, m))
    ensures Handed(answers, past, m, false, g, a, was, xs)
    ensures calls == Reaction(answers, Clean(g), NonNull(was))(past, m)
  {
  }

  lemma HandedFacts(answers: Answers, past: seq<Taken>, m: ReceivedMessage, ignored: bool, g: Graph, a: Graph, was: Slots, xs: Slots)
    requires Dispatchable(g) && forall c :: c in NonNull(was) ==> c in g
    requires Handed(answers, past, m, ignored, g, a, was, xs)
    ensures Tidied(g, a) && Clean(a) == Clean(g) && Swept(was, xs) && NonNull(xs) == NonNull(was)
  {
    if !ignored {
      var n, kids := Clean(g), NonNull(was);
      var decide := Answer(answers, past, m);
      ErasedTidied(g, Calls(Forest(n, kids) + [Receiver], [], decide), ForestTrail(n, kids, [], decide));
      SweptFacts(was, xs);
    }
    TidiedClean(g, a);
  }
}
