/** What a run leaves behind: where its packets went, and which commands set its state, read off the commands. */
module SenderHistory {
  import opened OscTypes
  import opened Packets
  import opened SenderSpec
  import opened SenderRuns

  lemma {:induction false} RunConcat(s: State, a: seq<Cmd>, b: seq<Cmd>)
    ensures Run(s, a + b) == match Run(s, a) case Some(t) => Run(t, b) case None => None
    decreases |a|
  {
    if a == [] {
      assert a + b == b;
    } else {
      assert (a + b)[0] == a[0] && (a + b)[1..] == a[1..] + b;
      match Step(s, a[0])
      case Accepted(next) => RunConcat(next, a[1..], b);
      case Threw(_) => RunConcat(s, a[1..], b);
      case Undefined =>
    }
  }

  lemma RunSnoc(s: State, cmds: seq<Cmd>, c: Cmd, t: State)
    requires Run(s, cmds) == Some(t)
    ensures Run(s, cmds + [c]) == match Step(t, c) case Accepted(u) => Some(u) case Threw(_) => Some(t) case Undefined => None
  {
    RunConcat(s, cmds, [c]);
    assert [c][1..] == [];
  }

  // The address

  /** The address of the last `setup` of a command list, whatever else is in it. */
  function LastSetup(cmds: seq<Cmd>, a: Option<Address>): Option<Address> {
    if cmds == [] then a else LastSetup(cmds[1..], if cmds[0].Setup? then Some(cmds[0].address) else a)
  }

  /** In every run the address is that of the last `setup`; no other command changes it. */
  lemma {:induction false} AddressHistory(s: State, cmds: seq<Cmd>)
    requires Run(s, cmds).Some?
    ensures Run(s, cmds).value.address == LastSetup(cmds, s.address)
    decreases |cmds|
  {
    if cmds != [] {
      match Step(s, cmds[0])
      case Accepted(next) => AddressHistory(next, cmds[1..]);
      case Threw(_) => AddressHistory(s, cmds[1..]);
    }
  }

  // The transmissions

  function Sends(cmds: seq<Cmd>): nat {
    if cmds == [] then 0 else (if cmds[0].Send? then 1 else 0) + Sends(cmds[1..])
  }

  /** Nothing transmitted is taken back, and every accepted `send`, and no other command, transmits one packet. */
  lemma {:induction false} OnePacketPerSend(s: State, cmds: seq<Cmd>)
    requires Run(s, cmds).Some?
    ensures s.sent <= Run(s, cmds).value.sent
    ensures |Run(s, cmds).value.sent| == |s.sent| + Sends(Kept(s, cmds))
    decreases |cmds|
  {
    if cmds != [] {
      match Step(s, cmds[0])
      case Accepted(next) =>
        OnePacketPerSend(next, cmds[1..]);
        assert Kept(s, cmds)[1..] == Kept(next, cmds[1..]);
      case Threw(_) => OnePacketPerSend(s, cmds[1..]);
    }
  }

  /** What `send` transmits in state `s`. */
  function Outgoing(s: State): Option<Packet> {
    if s.stack != [] then Some(Strip(Root(s.stack)))
    else if s.message.Some? then Some(Message(CStr(s.pattern), s.message.value.args))
    else None
  }

  lemma StepSends(s: State, c: Cmd)
    requires Step(s, c).Accepted?
    ensures Step(s, c).next.sent ==
            if c.Send? then s.sent + [Transmission(s.address.value, Outgoing(s).value)] else s.sent
  {
  }

  /** Transmission `i` of the run left with its `j`-th command, for the last address set up before. */
  ghost predicate Posted(cmds: seq<Cmd>, sent: seq<Transmission>, i: nat, j: nat) {
    && i < |sent| && j < |cmds| && cmds[j] == Send && LastSetup(cmds[..j], None) == Some(sent[i].to)
    && var t := Run(INITIAL, cmds[..j]);
       t.Some? && t.value.sent == sent[..i] && Outgoing(t.value) == Some(sent[i].packet)
  }

  lemma PostedKept(pre: seq<Cmd>, c: Cmd, sent: seq<Transmission>, sent': seq<Transmission>, i: nat, j: nat)
    requires Posted(pre, sent, i, j) && sent <= sent'
    ensures Posted(pre + [c], sent', i, j)
  {
    assert (pre + [c])[..j] == pre[..j] && sent[..i] == sent'[..i];
  }

  lemma PostedLast(pre: seq<Cmd>, s: State)
    requires Run(INITIAL, pre) == Some(s) && Step(s, Send).Accepted?
    ensures Posted(pre + [Send], Step(s, Send).next.sent, |s.sent|, |pre|)
  {
    AddressHistory(INITIAL, pre);
    StepSends(s, Send);
    assert (pre + [Send])[..|pre|] == pre;
  }

  /** Every transmission of every run goes to the last address set up before its `send`. */
  lemma {:induction false} SentHistory(cmds: seq<Cmd>, i: nat)
    requires Run(INITIAL, cmds).Some? && i < |Run(INITIAL, cmds).value.sent|
    ensures exists j: nat :: Posted(cmds, Run(INITIAL, cmds).value.sent, i, j)
    decreases |cmds|
  {
    var pre, c := cmds[..|cmds| - 1], cmds[|cmds| - 1];
    assert cmds == pre + [c];
    RunConcat(INITIAL, pre, [c]);
    var s := Run(INITIAL, pre).value;
    RunSnoc(INITIAL, pre, c, s);
    if Step(s, c).Accepted? {
      StepSends(s, c);
    }
    if i < |s.sent| {
      SentHistory(pre, i);
      var j: nat :| Posted(pre, s.sent, i, j);
      PostedKept(pre, c, s.sent, Run(INITIAL, cmds).value.sent, i, j);
    } else {
      PostedLast(pre, s);
    }
  }

  // The flag of the message

  function LastMark(cmds: seq<Cmd>, open: bool): bool {
    if cmds == [] then open
    else LastMark(cmds[1..], cmds[0].BeginMessage? || (open && !cmds[0].EndMessage?))
  }

  /** A message is in progress exactly when the last begin or end of a message that was accepted is a begin. */
  lemma {:induction false} MessageHistory(s: State, cmds: seq<Cmd>)
    requires Run(s, cmds).Some?
    ensures Run(s, cmds).value.messageOpen == LastMark(Kept(s, cmds), s.messageOpen)
    decreases |cmds|
  {
    if cmds != [] {
      match Step(s, cmds[0])
      case Accepted(next) =>
        MessageHistory(next, cmds[1..]);
        assert Kept(s, cmds)[1..] == Kept(next, cmds[1..]);
      case Threw(_) => MessageHistory(s, cmds[1..]);
    }
  }

  /** A bundle begun without a tag carries the one time tag that OSC reserves for "immediately". */
  lemma UntaggedImmediate(a: Address)
    ensures var t := Feed(INITIAL, [Setup(a)] + [BeginBundle] + [EndBundle] + [Send]);
            t.Some? && t.value.sent == [Transmission(a, Bundle(TimeTag(0, 1), []))]
  {
    FeedOne(INITIAL, Setup(a));
    var s1 := INITIAL.(address := Some(a));
    FeedSnoc(INITIAL, [Setup(a)], BeginBundle);
    var s2 := s1.(stack := [Frame(0, IMMEDIATE, [])], allocs := 1, bundleOpen := true);
    assert s1.stack + [Frame(0, IMMEDIATE, [])] == s2.stack;
    assert Feed(INITIAL, [Setup(a)] + [BeginBundle]) == Some(s2);
    FeedSnoc(INITIAL, [Setup(a)] + [BeginBundle], EndBundle);
    FeedSnoc(INITIAL, [Setup(a)] + [BeginBundle] + [EndBundle], Send);
  }
}
