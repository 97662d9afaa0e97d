/** The life of a receiver: setup, thread control, polling and arriving messages, in every interleaving. */
module ReceiverSpec {
  import opened OscTypes
  import opened ObjectGraph
  import opened ReceivedMessages

  /** A message taken from the socket, by the server thread or by polling, and the handlers called for it. */
  datatype Taken = Taken(message: ReceivedMessage, byThread: bool, calls: seq<Handler>)

  datatype State = State(
    server: bool,                    // a server handle exists
    multicast: bool,
    running: bool,
    ignoring: bool,
    pending: seq<ReceivedMessage>,   // arrived at the socket, not yet taken
    taken: seq<Taken>)

  const INITIAL: State := State(false, false, false, false, [], [])

  /** The handlers that dispatch calls for a message that is not ignored, given all that was taken before it. */
  type React = (seq<Taken>, ReceivedMessage) -> seq<Handler>

  /** Atomic steps. `created` is liblo's answer to a request for a server, `bytes` the size it reports of a message. */
  datatype Event =
    | Setup(created: bool)
    | SetupMulticast(created: bool)
    | Start
    | Stop
    | Clear
    | Ignore(yesno: bool)
    | Poll(bytes: nat)
    | Arrive(message: ReceivedMessage)
    | ThreadTakes

  function Stopped(s: State): State {
    if !s.server then s else s.(running := false, ignoring := false)
  }

  function Take(s: State, byThread: bool, react: React): State {
    if s.pending == [] then s else
    s.(pending := s.pending[1..],
       taken := s.taken + [Taken(s.pending[0], byThread, if s.ignoring then [] else react(s.taken, s.pending[0]))])
  }

  predicate Takes(e: Event) {
    e.Poll? || e.ThreadTakes?
  }

  /** The steps that take no message. */
  function Control(s: State, e: Event): State
    requires !Takes(e)
  {
    match e
    case Setup(created) => if s.server || !created then s else s.(server := true, multicast := false)
    case SetupMulticast(created) => if s.server || !created then s else s.(server := true, multicast := true)
    case Start => if !s.server then s else s.(running := true)
    case Stop => Stopped(s)
    case Clear => Stopped(s).(server := false, multicast := false, pending := [])
    case Ignore(yesno) => s.(ignoring := yesno)
    case Arrive(m) => if !s.server then s else s.(pending := s.pending + [m])
  }

  function Step(s: State, e: Event, react: React): State {
    match e
    case Poll(_) => if !s.server || s.running then s else Take(s, false, react)
    case ThreadTakes => if !s.running then s else Take(s, true, react)
    case _ => Control(s, e)
  }

  /** What `setup` and `setupMulticast` return. */
  predicate SetUp(s: State, e: Event) {
    !s.server && ((e.Setup? && e.created) || (e.SetupMulticast? && e.created))
  }

  function Run(s: State, es: seq<Event>, react: React): State
    decreases |es|
  {
    if es == [] then s else Run(Step(s, es[0], react), es[1..], react)
  }

  lemma {:induction false} RunConcat(s: State, a: seq<Event>, b: seq<Event>, react: React)
    ensures Run(s, a + b, react) == Run(Run(s, a, react), b, react)
    decreases |a|
  {
    if a == [] {
      assert a + b == b;
    } else {
      assert (a + b)[0] == a[0] && (a + b)[1..] == a[1..] + b;
      RunConcat(Step(s, a[0], react), a[1..], b, react);
    }
  }

  // Safety

  /** A receiver that runs, or is multicast, or holds messages, has a server. */
  predicate Sound(s: State) {
    s.running || s.multicast || s.pending != [] ==> s.server
  }

  lemma {:induction false} AlwaysSound(s: State, es: seq<Event>, react: React)
    requires Sound(s)
    ensures Sound(Run(s, es, react))
    decreases |es|
  {
    if es != [] {
      AlwaysSound(Step(s, es[0], react), es[1..], react);
    }
  }

  ghost predicate Without(es: seq<Event>, bad: Event -> bool) {
    forall i :: 0 <= i < |es| ==> !bad(es[i])
  }

  predicate Clears(e: Event) {
    e.Clear?
  }

  predicate Halts(e: Event) {
    e.Clear? || e.Stop?
  }

  predicate Listens(e: Event) {
    e.Clear? || e.Stop? || e == Ignore(false)
  }

  lemma {:induction false} ServerStays(s: State, es: seq<Event>, react: React)
    requires s.server && Without(es, Clears)
    ensures Run(s, es, react).server
    decreases |es|
  {
    if es != [] {
      assert !Clears(es[0]);
      assert forall i :: 0 <= i < |es[1..]| ==> es[1..][i] == es[i + 1];
      ServerStays(Step(s, es[0], react), es[1..], react);
    }
  }

  /** Between two successful setups of any run there is a `clear`. */
  lemma SetupOncePerClear(s: State, es: seq<Event>, i: nat, j: nat, react: React)
    requires i < j < |es|
    requires SetUp(Run(s, es[..i], react), es[i]) && SetUp(Run(s, es[..j], react), es[j])
    ensures exists k :: i < k < j && es[k].Clear?
  {
    var first := Step(Run(s, es[..i], react), es[i], react);
    RunSnoc(s, es[..i], es[i], react);
    var between := es[i + 1..j];
    assert es[..j] == es[..i] + [es[i]] + between;
    RunConcat(s, es[..i] + [es[i]], between, react);
    if forall k :: i < k < j ==> !es[k].Clear? {
      assert Without(between, Clears);
      ServerStays(first, between, react);
    }
  }

  /** While the thread runs, it alone takes messages: polling takes none. */
  lemma {:induction false} ThreadTakesAll(s: State, es: seq<Event>, react: React)
    requires Sound(s) && s.running && Without(es, Halts)
    ensures Run(s, es, react).running && s.taken <= Run(s, es, react).taken
    ensures forall i :: |s.taken| <= i < |Run(s, es, react).taken| ==> Run(s, es, react).taken[i].byThread
    decreases |es|
  {
    if es != [] {
      assert !Halts(es[0]);
      assert forall i :: 0 <= i < |es[1..]| ==> es[1..][i] == es[i + 1];
      ThreadTakesAll(Step(s, es[0], react), es[1..], react);
    }
  }

  /** While messages are ignored, they are taken but no handler is called for them. */
  lemma {:induction false} IgnoredUnheard(s: State, es: seq<Event>, react: React)
    requires s.ignoring && Without(es, Listens)
    ensures Run(s, es, react).ignoring && s.taken <= Run(s, es, react).taken
    ensures forall i :: |s.taken| <= i < |Run(s, es, react).taken| ==> Run(s, es, react).taken[i].calls == []
    decreases |es|
  {
    if es != [] {
      assert !Listens(es[0]);
      assert forall i :: 0 <= i < |es[1..]| ==> es[1..][i] == es[i + 1];
      IgnoredUnheard(Step(s, es[0], react), es[1..], react);
    }
  }

  /** While messages are not ignored, dispatch is run for every message taken, on all that was taken before it. */
  lemma {:induction false} HeardExactly(s: State, es: seq<Event>, react: React)
    requires !s.ignoring && forall i :: 0 <= i < |es| ==> es[i] != Ignore(true)
    ensures var t := Run(s, es, react);
            && !t.ignoring && s.taken <= t.taken
            && forall i :: |s.taken| <= i < |t.taken| ==> t.taken[i].calls == react(t.taken[..i], t.taken[i].message)
    decreases |es|
  {
    if es != [] {
      var next, t := Step(s, es[0], react), Run(s, es, react);
      HeardExactly(next, es[1..], react);
      assert next.taken <= t.taken;
      assert |next.taken| > |s.taken| ==> t.taken[|s.taken|] == next.taken[|s.taken|] && t.taken[..|s.taken|] == s.taken;
    }
  }

  // Progress

  /** Attempts to take a message by those who may: the thread while it runs, polling while it does not. */
  ghost predicate Attempts(s: State, es: seq<Event>) {
    forall i :: 0 <= i < |es| ==> if s.running then es[i].ThreadTakes? else es[i].Poll?
  }

  /** From `s` to `t` the `n` oldest waiting messages were taken, in order, and nothing else happened. */
  ghost predicate Drained(s: State, t: State, n: nat) {
    && n <= |s.pending| && t == s.(pending := s.pending[n..], taken := t.taken)
    && s.taken <= t.taken && |t.taken| == |s.taken| + n
    && forall k :: |s.taken| <= k < |t.taken| ==>
         t.taken[k].message == s.pending[k - |s.taken|] && t.taken[k].byThread == s.running
  }

  lemma DrainedMore(s: State, t: State, n: nat, react: React)
    requires s.pending != [] && Drained(Take(s, s.running, react), t, n)
    ensures Drained(s, t, n + 1)
  {
    var next := Take(s, s.running, react);
    assert t.taken[|s.taken|] == next.taken[|s.taken|];
    assert next.pending[n..] == s.pending[n + 1..];
  }

  /** Each attempt takes the oldest waiting message, as long as there is one. */
  lemma {:induction false} Drains(s: State, es: seq<Event>, react: React)
    requires s.server && Attempts(s, es)
    ensures Drained(s, Run(s, es, react), if |es| < |s.pending| then |es| else |s.pending|)
    decreases |es|
  {
    if es != [] {
      var next := Step(s, es[0], react);
      assert forall i :: 0 <= i < |es[1..]| ==> es[1..][i] == es[i + 1];
      assert next == Take(s, s.running, react);
      Drains(next, es[1..], react);
      if s.pending != [] {
        DrainedMore(s, Run(s, es, react), if |es| - 1 < |next.pending| then |es| - 1 else |next.pending|, react);
      }
    }
  }

  /** The `i`-th message taken is what the `j`-th event found waiting first, dispatched as things stood. */
  ghost predicate TakenBy(es: seq<Event>, taken: seq<Taken>, i: nat, j: nat, react: React) {
    && i < |taken| && j < |es| && Takes(es[j])
    && var t := Run(INITIAL, es[..j], react);
       && t.server && t.running == es[j].ThreadTakes? && t.pending != [] && t.taken == taken[..i]
       && taken[i] == Taken(t.pending[0], t.running, if t.ignoring then [] else react(t.taken, t.pending[0]))
  }

  lemma TakenByKept(pre: seq<Event>, e: Event, taken: seq<Taken>, taken': seq<Taken>, i: nat, j: nat, react: React)
    requires TakenBy(pre, taken, i, j, react) && taken <= taken'
    ensures TakenBy(pre + [e], taken', i, j, react)
  {
    assert (pre + [e])[..j] == pre[..j] && taken[..i] == taken'[..i];
  }

  lemma TakenByLast(pre: seq<Event>, e: Event, react: React)
    requires var s := Run(INITIAL, pre, react); Sound(s) && Step(s, e, react).taken != s.taken
    ensures var s := Run(INITIAL, pre, react);
            && |Step(s, e, react).taken| == |s.taken| + 1
            && TakenBy(pre + [e], Step(s, e, react).taken, |s.taken|, |pre|, react)
  {
    var s := Run(INITIAL, pre, react);
    assert (pre + [e])[..|pre|] == pre && Step(s, e, react).taken[..|s.taken|] == s.taken;
  }

  /** Provenance, in every run: every message taken was taken once, by one event, and dispatched as things stood then. */
  lemma {:induction false} TakenHistory(es: seq<Event>, i: nat, react: React)
    requires i < |Run(INITIAL, es, react).taken|
    ensures exists j: nat :: TakenBy(es, Run(INITIAL, es, react).taken, i, j, react)
    decreases |es|
  {
    var pre, e := es[..|es| - 1], es[|es| - 1];
    assert es == pre + [e];
    RunSnoc(INITIAL, pre, e, react);
    AlwaysSound(INITIAL, pre, react);
    var s, t := Run(INITIAL, pre, react), Run(INITIAL, es, react);
    StepAppends(s, e, react);
    if i < |s.taken| {
      TakenHistory(pre, i, react);
      var j: nat :| TakenBy(pre, s.taken, i, j, react);
      TakenByKept(pre, e, s.taken, t.taken, i, j, react);
    } else {
      TakenByLast(pre, e, react);
    }
  }

  /** `clear` takes every receiver back to a new one, except for what was taken, and for ignoring without a server. */
  lemma ClearResets(es: seq<Event>, react: React)
    ensures var s := Run(INITIAL, es, react);
            Run(INITIAL, es + [Clear], react) == INITIAL.(ignoring := s.ignoring && !s.server, taken := s.taken)
  {
    AlwaysSound(INITIAL, es, react);
    RunSnoc(INITIAL, es, Clear, react);
  }

  /** Any receiver can be set up and started again after `clear`, and stopped. */
  lemma StartsAgain(es: seq<Event>, react: React)
    ensures var t := Run(INITIAL, es + [Clear] + [Setup(true)] + [Start], react);
            t.server && t.running && !t.multicast && t.pending == []
    ensures var t := Run(INITIAL, es + [Clear] + [SetupMulticast(true)] + [Start] + [Stop], react);
            t.server && t.multicast && !t.running && !t.ignoring
  {
    ClearResets(es, react);
    RunSnoc(INITIAL, es + [Clear], Setup(true), react);
    RunSnoc(INITIAL, es + [Clear] + [Setup(true)], Start, react);
    RunSnoc(INITIAL, es + [Clear], SetupMulticast(true), react);
    RunSnoc(INITIAL, es + [Clear] + [SetupMulticast(true)], Start, react);
    RunSnoc(INITIAL, es + [Clear] + [SetupMulticast(true)] + [Start], Stop, react);
  }

  // Every flag, from the history of the run

  /** Some event did `on` and none since did `off`; both are judged in the state the event meets. */
  ghost predicate Since(es: seq<Event>, on: (State, Event) -> bool, off: (State, Event) -> bool, react: React) {
    exists i :: Onset(es, on, off, i, react)
  }

  ghost predicate Onset(es: seq<Event>, on: (State, Event) -> bool, off: (State, Event) -> bool, i: nat, react: React) {
    && i < |es| && on(Run(INITIAL, es[..i], react), es[i])
    && forall j :: i < j < |es| ==> !off(Run(INITIAL, es[..j], react), es[j])
  }

  lemma OnsetKept(pre: seq<Event>, e: Event, on: (State, Event) -> bool, off: (State, Event) -> bool, i: nat, react: React)
    requires i < |pre|
    ensures Onset(pre + [e], on, off, i, react) <==> Onset(pre, on, off, i, react) && !off(Run(INITIAL, pre, react), e)
  {
    var es, n := pre + [e], |pre|;
    assert es[..n] == pre && es[n] == e;
    assert forall j :: 0 <= j < n ==> es[j] == pre[j] && es[..j] == pre[..j];
    if Onset(es, on, off, i, react) {
      forall j | i < j < n ensures !off(Run(INITIAL, pre[..j], react), pre[j]) {
        assert es[..j] == pre[..j];
      }
      assert !off(Run(INITIAL, es[..n], react), es[n]);
    }
    if Onset(pre, on, off, i, react) && !off(Run(INITIAL, pre, react), e) {
      forall j | i < j < |es| ensures !off(Run(INITIAL, es[..j], react), es[j]) {
        assert j < n ==> es[..j] == pre[..j];
      }
    }
  }

  lemma SinceStep(pre: seq<Event>, e: Event, on: (State, Event) -> bool, off: (State, Event) -> bool, react: React)
    ensures Since(pre + [e], on, off, react) <==>
            on(Run(INITIAL, pre, react), e) || (Since(pre, on, off, react) && !off(Run(INITIAL, pre, react), e))
  {
    var es, n := pre + [e], |pre|;
    assert es[..n] == pre && es[n] == e;
    assert Onset(es, on, off, n, react) <==> on(Run(INITIAL, pre, react), e);
    if i: nat :| Onset(es, on, off, i, react) && i < n {
      OnsetKept(pre, e, on, off, i, react);
    }
    if i: nat :| Onset(pre, on, off, i, react) {
      OnsetKept(pre, e, on, off, i, react);
    }
  }

  predicate TurnsMulticast(s: State, e: Event) {
    SetUp(s, e) && e.SetupMulticast?
  }

  predicate TurnsRunning(s: State, e: Event) {
    s.server && e.Start?
  }

  predicate TurnsIgnoring(s: State, e: Event) {
    e == Ignore(true)
  }

  predicate TurnsListening(s: State, e: Event) {
    e == Ignore(false) || (s.server && Halts(e))
  }

  predicate DropsServer(s: State, e: Event) {
    Clears(e)
  }

  predicate StopsRunning(s: State, e: Event) {
    Halts(e)
  }

  lemma FlagStep(s: State, e: Event, react: React)
    requires Sound(s)
    ensures var t := Step(s, e, react);
            && Sound(t)
            && (t.server <==> SetUp(s, e) || (s.server && !DropsServer(s, e)))
            && (t.multicast <==> TurnsMulticast(s, e) || (s.multicast && !DropsServer(s, e)))
            && (t.running <==> TurnsRunning(s, e) || (s.running && !StopsRunning(s, e)))
            && (t.ignoring <==> TurnsIgnoring(s, e) || (s.ignoring && !TurnsListening(s, e)))
  {
  }

  lemma RunSnoc(s: State, pre: seq<Event>, e: Event, react: React)
    ensures Run(s, pre + [e], react) == Step(Run(s, pre, react), e, react)
  {
    RunConcat(s, pre, [e], react);
    assert [e][1..] == [];
  }

  /**
   In every run: there is a server iff a setup succeeded and nothing cleared it since, multicast iff that setup was a
   multicast one; the thread runs iff it was started on a server and neither stopped nor cleared since; messages are
   ignored iff that was asked for and not taken back since, by request or by stopping or clearing a server.
   */
  lemma {:induction false} FlagHistory(es: seq<Event>, react: React)
    ensures Sound(Run(INITIAL, es, react))
    ensures Run(INITIAL, es, react).server <==> Since(es, SetUp, DropsServer, react)
    ensures Run(INITIAL, es, react).multicast <==> Since(es, TurnsMulticast, DropsServer, react)
    ensures Run(INITIAL, es, react).running <==> Since(es, TurnsRunning, StopsRunning, react)
    ensures Run(INITIAL, es, react).ignoring <==> Since(es, TurnsIgnoring, TurnsListening, react)
    decreases |es|
  {
    if es != [] {
      var pre, e := es[..|es| - 1], es[|es| - 1];
      assert es == pre + [e];
      FlagHistory(pre, react);
      RunSnoc(INITIAL, pre, e, react);
      FlagStep(Run(INITIAL, pre, react), e, react);
      SinceStep(pre, e, SetUp, DropsServer, react);
      SinceStep(pre, e, TurnsMulticast, DropsServer, react);
      SinceStep(pre, e, TurnsRunning, StopsRunning, react);
      SinceStep(pre, e, TurnsIgnoring, TurnsListening, react);
    }
  }

  // No message is lost, duplicated or reordered between arrival and dispatch

  function Messages(ts: seq<Taken>): seq<ReceivedMessage> {
    seq(|ts|, i requires 0 <= i < |ts| => ts[i].message)
  }

  /** The messages that arrive while there is a server, since the last `clear`. */
  function Arrivals(s: State, es: seq<Event>, acc: seq<ReceivedMessage>, react: React): seq<ReceivedMessage>
    decreases |es|
  {
    if es == [] then acc else
    Arrivals(Step(s, es[0], react), es[1..],
             if es[0].Clear? then [] else if es[0].Arrive? && s.server then acc + [es[0].message] else acc, react)
  }

  /** The messages taken since the last `clear`. */
  function TakenSince(s: State, es: seq<Event>, acc: seq<Taken>, react: React): seq<Taken>
    decreases |es|
  {
    if es == [] then acc else
    var t := Step(s, es[0], react);
    StepAppends(s, es[0], react);
    TakenSince(t, es[1..], if es[0].Clear? then [] else acc + t.taken[|s.taken|..], react)
  }

  lemma StepAppends(s: State, e: Event, react: React)
    ensures s.taken <= Step(s, e, react).taken
    ensures !e.Clear? ==>
              (Messages(Step(s, e, react).taken[|s.taken|..]) + Step(s, e, react).pending
               == s.pending + if e.Arrive? && s.server then [e.message] else [])
  {
    var t := Step(s, e, react);
    if t.taken != s.taken {
      assert t.taken[|s.taken|..] == [t.taken[|s.taken|]];
      assert Messages(t.taken[|s.taken|..]) == [s.pending[0]];
    } else {
      assert t.taken[|s.taken|..] == [];
      assert Messages([]) == [];
    }
  }

  /** First in, first out: what was taken, followed by what still waits, is what arrived. */
  lemma {:induction false} TakenInOrder(s: State, es: seq<Event>, ts: seq<Taken>, acc: seq<ReceivedMessage>, react: React)
    requires Messages(ts) + s.pending == acc
    ensures Messages(TakenSince(s, es, ts, react)) + Run(s, es, react).pending == Arrivals(s, es, acc, react)
    decreases |es|
  {
    if es != [] {
      var t, e := Step(s, es[0], react), es[0];
      StepAppends(s, e, react);
      if e.Clear? {
        TakenInOrder(t, es[1..], [], [], react);
      } else {
        var more := t.taken[|s.taken|..];
        assert Messages(ts + more) == Messages(ts) + Messages(more);
        var acc' := if e.Arrive? && s.server then acc + [e.message] else acc;
        assert Messages(ts + more) + t.pending == acc' by {
          Associative(Messages(ts), Messages(more), t.pending);
          Associative(Messages(ts), s.pending, if e.Arrive? && s.server then [e.message] else []);
          assert acc + [] == acc;
        }
        TakenInOrder(t, es[1..], ts + more, acc', react);
      }
    }
  }
}
