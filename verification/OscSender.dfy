/** The packet builder on the heap: liblo messages and bundles as objects, aliased by the bundle stack. */
module OscSenders {
  import opened OscTypes
  import opened Packets
  import opened SenderSpec
  import opened SenderOwnership

  /** A `lo_message`. */
  class LoMessage {
    ghost const id: nat
    var args: seq<Arg>

    constructor (ghost id: nat)
      ensures this.id == id && args == []
    {
      this.id := id;
      args := [];
    }
  }

  datatype Element = MessageElement(path: string, message: LoMessage) | BundleElement(bundle: LoBundle)

  /** A `lo_bundle`. Once it is finished, `content` is the value of its elements. */
  class LoBundle {
    ghost const id: nat
    const tag: TimeTag
    var elems: seq<Element>
    ghost var content: seq<Node>

    constructor (ghost id: nat, tag: TimeTag)
      ensures this.id == id && this.tag == tag && elems == []
    {
      this.id := id;
      this.tag := tag;
      elems := [];
    }
  }

  ghost predicate Shows(e: Element, n: Node, closed: set<LoBundle>, frozen: set<LoMessage>)
    reads closed, frozen
  {
    match e
    case MessageElement(path, m) => m in frozen && n == MessageNode(m.id, path, m.args)
    case BundleElement(b) => b in closed && n == BundleNode(b.id, b.tag, b.content)
  }

  ghost predicate ShowsAll(es: seq<Element>, ns: seq<Node>, closed: set<LoBundle>, frozen: set<LoMessage>)
    reads closed, frozen
  {
    |es| == |ns| && forall i :: 0 <= i < |es| ==> Shows(es[i], ns[i], closed, frozen)
  }

  lemma ShowsSnoc(es: seq<Element>, ns: seq<Node>, e: Element, n: Node, closed: set<LoBundle>, frozen: set<LoMessage>)
    requires ShowsAll(es, ns, closed, frozen) && Shows(e, n, closed, frozen)
    ensures ShowsAll(es + [e], ns + [n], closed, frozen)
  {
  }

  /** Bundle `k` of the stack shows its frame; above the cursor its last element is the next bundle of the stack. */
  ghost predicate ShowsFrame(bundles: seq<LoBundle>, frames: seq<Frame>, k: nat, closed: set<LoBundle>, frozen: set<LoMessage>)
    requires k < |bundles| == |frames|
    reads bundles, closed, frozen
  {
    var b, f := bundles[k], frames[k];
    && b.id == f.id && b.tag == f.tag
    && (if k == |bundles| - 1 then
          ShowsAll(b.elems, f.done, closed, frozen)
        else
          && |b.elems| == |f.done| + 1
          && b.elems[|f.done|] == BundleElement(bundles[k + 1])
          && ShowsAll(b.elems[..|f.done|], f.done, closed, frozen))
  }

  /** The spine invariant: the stack is the rightmost path of the tree below its first bundle. */
  ghost predicate Spine(bundles: seq<LoBundle>, frames: seq<Frame>, closed: set<LoBundle>, frozen: set<LoMessage>)
    reads bundles, closed, frozen
  {
    && |frames| == |bundles|
    && (forall i, j :: 0 <= i < j < |bundles| ==> bundles[i] != bundles[j])
    && (forall k :: 0 <= k < |bundles| ==> bundles[k] !in closed)
    && (forall k :: 0 <= k < |bundles| ==> ShowsFrame(bundles, frames, k, closed, frozen))
  }

  ghost predicate Finished(closed: set<LoBundle>, frozen: set<LoMessage>)
    reads closed, frozen
  {
    forall b :: b in closed ==> ShowsAll(b.elems, b.content, closed, frozen)
  }

  // The heap tree and the value it stands for

  /** The tree of liblo objects below `b`, read off their fields alone, is the value `n`. */
  ghost predicate Denotes(b: LoBundle, n: Node, bundles: set<LoBundle>, messages: set<LoMessage>)
    reads bundles, messages
    decreases n, 0
  {
    && b in bundles
    && n.BundleNode? && n.id == b.id && n.tag == b.tag && |n.elems| == |b.elems|
    && forall i :: 0 <= i < |b.elems| ==> DenotesElement(b.elems[i], n.elems[i], bundles, messages)
  }

  ghost predicate DenotesElement(e: Element, n: Node, bundles: set<LoBundle>, messages: set<LoMessage>)
    reads bundles, messages
    decreases n, 1
  {
    match e
    case MessageElement(path, m) => m in messages && n == MessageNode(m.id, path, m.args)
    case BundleElement(c) => Denotes(c, n, bundles, messages)
  }

  /** A heap tree stands for one value. */
  lemma {:induction false} DenotesUnique(b: LoBundle, n: Node, m: Node, bundles: set<LoBundle>, messages: set<LoMessage>)
    requires Denotes(b, n, bundles, messages) && Denotes(b, m, bundles, messages)
    ensures n == m
    decreases n
  {
    forall i | 0 <= i < |b.elems| ensures n.elems[i] == m.elems[i] {
      assert DenotesElement(b.elems[i], n.elems[i], bundles, messages);
      assert DenotesElement(b.elems[i], m.elems[i], bundles, messages);
      if b.elems[i].BundleElement? {
        DenotesUnique(b.elems[i].bundle, n.elems[i], m.elems[i], bundles, messages);
      }
    }
    assert n.elems == m.elems;
  }

  // The objects of a heap tree

  datatype HeapNode = MessageObject(message: LoMessage) | BundleObject(bundle: LoBundle)

  ghost function IdOf(x: HeapNode): nat {
    match x
    case MessageObject(m) => m.id
    case BundleObject(b) => b.id
  }

  ghost function IdsOf(xs: seq<HeapNode>): seq<nat> {
    seq(|xs|, i requires 0 <= i < |xs| => IdOf(xs[i]))
  }

  /** Every object a recursive free of `b` comes to, in preorder, as often as it comes to it. */
  ghost function Objects(b: LoBundle, n: Node, bundles: set<LoBundle>, messages: set<LoMessage>): seq<HeapNode>
    requires Denotes(b, n, bundles, messages)
    reads bundles, messages
    decreases n, 1
  {
    [BundleObject(b)] + ObjectsAll(b.elems, n.elems, bundles, messages)
  }

  ghost function ObjectsAll(es: seq<Element>, ns: seq<Node>, bundles: set<LoBundle>, messages: set<LoMessage>): seq<HeapNode>
    requires |es| == |ns| && forall i :: 0 <= i < |es| ==> DenotesElement(es[i], ns[i], bundles, messages)
    reads bundles, messages
    decreases ns, 0
  {
    if es == [] then [] else
    assert DenotesElement(es[0], ns[0], bundles, messages);
    (match es[0]
     case MessageElement(_, m) => [MessageObject(m)]
     case BundleElement(c) => Objects(c, ns[0], bundles, messages))
    + ObjectsAll(es[1..], ns[1..], bundles, messages)
  }

  lemma {:induction false} ObjectIds(b: LoBundle, n: Node, bundles: set<LoBundle>, messages: set<LoMessage>)
    requires Denotes(b, n, bundles, messages)
    ensures IdsOf(Objects(b, n, bundles, messages)) == Ids(n)
    decreases n, 1
  {
    ObjectIdsAll(b.elems, n.elems, bundles, messages);
    IdsOfConcat([BundleObject(b)], ObjectsAll(b.elems, n.elems, bundles, messages));
    assert IdsOf([BundleObject(b)]) == [b.id];
  }

  lemma {:induction false} ObjectIdsAll(es: seq<Element>, ns: seq<Node>, bundles: set<LoBundle>, messages: set<LoMessage>)
    requires |es| == |ns| && forall i :: 0 <= i < |es| ==> DenotesElement(es[i], ns[i], bundles, messages)
    ensures IdsOf(ObjectsAll(es, ns, bundles, messages)) == IdsAll(ns)
    decreases ns, 0
  {
    if es != [] {
      var rest := ObjectsAll(es[1..], ns[1..], bundles, messages);
      ObjectIdsAll(es[1..], ns[1..], bundles, messages);
      assert DenotesElement(es[0], ns[0], bundles, messages);
      match es[0] {
        case MessageElement(_, m) =>
          IdsOfConcat([MessageObject(m)], rest);
          assert IdsOf([MessageObject(m)]) == [m.id];
        case BundleElement(c) =>
          ObjectIds(c, ns[0], bundles, messages);
          IdsOfConcat(Objects(c, ns[0], bundles, messages), rest);
      }
    }
  }

  lemma IdsOfConcat(xs: seq<HeapNode>, ys: seq<HeapNode>)
    ensures IdsOf(xs + ys) == IdsOf(xs) + IdsOf(ys)
  {
  }

  lemma {:induction false} ClosedDenotes(b: LoBundle, n: Node, closed: set<LoBundle>, frozen: set<LoMessage>, all: set<LoBundle>)
    requires Finished(closed, frozen) && closed <= all
    requires b in closed && n == BundleNode(b.id, b.tag, b.content)
    ensures Denotes(b, n, all, frozen)
    decreases n, 0
  {
    forall i | 0 <= i < |b.elems| ensures DenotesElement(b.elems[i], n.elems[i], all, frozen) {
      assert Shows(b.elems[i], b.content[i], closed, frozen);
      ShownDenotes(b.elems[i], n.elems[i], closed, frozen, all);
    }
  }

  lemma {:induction false} ShownDenotes(e: Element, n: Node, closed: set<LoBundle>, frozen: set<LoMessage>, all: set<LoBundle>)
    requires Finished(closed, frozen) && closed <= all && Shows(e, n, closed, frozen)
    ensures DenotesElement(e, n, all, frozen)
    decreases n, 1
  {
    if e.BundleElement? {
      ClosedDenotes(e.bundle, n, closed, frozen, all);
    }
  }

  /** From the spine invariant: bundle `k` of the stack is the root of what the frames from `k` on describe. */
  lemma {:induction false} SpineDenotes(bundles: seq<LoBundle>, frames: seq<Frame>, k: nat,
                                        closed: set<LoBundle>, frozen: set<LoMessage>, all: set<LoBundle>)
    requires Spine(bundles, frames, closed, frozen) && Finished(closed, frozen) && k < |bundles|
    requires closed <= all && forall b :: b in bundles ==> b in all
    ensures Denotes(bundles[k], RootFrom(frames, k), all, frozen)
    decreases |bundles| - k
  {
    assert ShowsFrame(bundles, frames, k, closed, frozen);
    var b, done := bundles[k], frames[k].done;
    if k < |bundles| - 1 {
      SpineDenotes(bundles, frames, k + 1, closed, frozen, all);
    }
    forall i | 0 <= i < |done| ensures DenotesElement(b.elems[i], done[i], all, frozen) {
      assert Shows(b.elems[i], done[i], closed, frozen) by { assert b.elems[..|done|][i] == b.elems[i]; }
      ShownDenotes(b.elems[i], done[i], closed, frozen, all);
    }
  }

  ghost predicate Obeys(s: State, c: Cmd, thrown: Option<Exception>, t: State) {
    match Step(s, c)
    case Accepted(next) => thrown.None? && t == next
    case Threw(e) => thrown == Some(e) && t == s
    case Undefined => false
  }

  class OscSender {
    var address: Option<Address>
    var message: LoMessage?
    var bundles: seq<LoBundle>
    var addressPattern: string
    var messageInProgress: bool
    var bundleInProgress: bool

    ghost var frames: seq<Frame>        // the values of the stacked bundles
    ghost var closed: set<LoBundle>     // finished bundles of the tree
    ghost var frozen: set<LoMessage>    // finished messages of the tree
    ghost var allocs: nat
    ghost var freed: seq<nat>
    ghost var sent: seq<Transmission>

    /** The sender gains no access to objects of others. */
    twostate predicate KeepsToItself()
      reads this
    {
      && (forall k :: 0 <= k < |bundles| ==> bundles[k] in old(bundles) || fresh(bundles[k]))
      && (message == null || message == old(message) || fresh(message))
    }

    ghost predicate Valid()
      reads this, bundles, closed, frozen
    {
      && Spine(bundles, frames, closed, frozen)
      && Finished(closed, frozen)
      && (message != null ==> message !in frozen)
    }

    /** All bundles of the tree. */
    ghost function TreeBundles(): set<LoBundle>
      reads this
    {
      closed + (set b | b in bundles)
    }

    ghost function View(): State
      reads this, message
    {
      State(address, if message == null then None else Some(Draft(message.id, message.args)), addressPattern,
            frames, messageInProgress, bundleInProgress, allocs, freed, sent)
    }

    constructor ()
      ensures Valid() && bundles == [] && message == null && View() == INITIAL
    {
      address, message, bundles, addressPattern := None, null, [], "";
      messageInProgress, bundleInProgress := false, false;
      frames, closed, frozen, allocs, freed, sent := [], {}, {}, 0, [], [];
    }

    /** The object at the bottom of the stack, which `send` transmits and `clear` frees, is the tree of the view. */
    lemma RootDenoted()
      requires Valid() && bundles != []
      ensures Denotes(bundles[0], Root(View().stack), TreeBundles(), frozen)
    {
      RootIsRootFrom(frames);
      SpineDenotes(bundles, frames, 0, closed, frozen, TreeBundles());
    }

    /**
     In every state a run can lead to, no object hangs in the tree twice, the message being built does not hang in it,
     and nothing in it has been freed: the stack aliases a proper tree, and freeing it recursively frees everything once.
     */
    lemma TreeNotShared(cmds: seq<Cmd>)
      requires Valid() && bundles != [] && Run(INITIAL, cmds) == Some(View())
      ensures Denotes(bundles[0], Root(View().stack), TreeBundles(), frozen)
      ensures var xs := Objects(bundles[0], Root(View().stack), TreeBundles(), frozen);
              && IdsOf(xs) == Ids(Root(View().stack))
              && (forall i, j :: 0 <= i < j < |xs| ==> xs[i] != xs[j])
              && (forall i :: 0 <= i < |xs| ==> IdOf(xs[i]) !in freed)
              && (message != null ==> MessageObject(message) !in xs)
    {
      RootDenoted();
      var xs := Objects(bundles[0], Root(View().stack), TreeBundles(), frozen);
      var ids := IdsOf(xs);
      ObjectIds(bundles[0], Root(View().stack), TreeBundles(), frozen);
      NoDoubleFree(cmds);
      RootMeasures(frames);
      forall i, j | 0 <= i < j < |xs| ensures xs[i] != xs[j] {
        assert ids[i] != ids[j];
      }
      forall i | 0 <= i < |xs| ensures IdOf(xs[i]) !in freed && (message != null ==> xs[i] != MessageObject(message)) {
        assert ids[i] in ids;
      }
    }

    method Setup(host: string, port: Word) returns (thrown: Option<Exception>)
      requires Valid()
      modifies this
      ensures Valid() && KeepsToItself()
      ensures Obeys(old(View()), Cmd.Setup(Address(host, port)), thrown, View())
    {
      address := Some(Address(host, port));
      thrown := None;
    }

    method Send() returns (thrown: Option<Exception>)
      requires Valid()
      modifies this
      ensures Valid() && KeepsToItself()
      ensures Obeys(old(View()), Cmd.Send, thrown, View())
      ensures thrown.None? && old(bundles) != [] ==>
                exists n :: old(Denotes(bundles[0], n, TreeBundles(), frozen)) && |sent| > 0 && sent[|sent| - 1].packet == Strip(n)
    {
      if address.None? || bundleInProgress || messageInProgress {
        return Some(SendException);
      }
      if |bundles| > 0 {
        RootDenoted();
        sent := sent + [Transmission(address.value, Strip(Root(frames)))];
      } else {
        if message == null {
          return Some(SendException);
        }
        sent := sent + [Transmission(address.value, Message(CStr(addressPattern), message.args))];
      }
      thrown := Clear();
    }

    method Clear() returns (thrown: Option<Exception>)
      requires Valid()
      modifies this
      ensures Valid() && KeepsToItself()
      ensures Obeys(old(View()), Cmd.Clear, thrown, View())
      ensures old(bundles) != [] ==>
                exists n :: old(Denotes(bundles[0], n, TreeBundles(), frozen)) && freed == old(freed) + Ids(n)
      ensures address == old(address) && sent == old(sent)
    {
      if |bundles| > 0 {
        RootDenoted();
        freed := freed + Ids(Root(frames));
        bundles, frames := [], [];
      } else if message != null {
        freed := freed + [message.id];
      } else {
        assert freed + [] == freed;
      }
      closed, frozen := {}, {};
      addressPattern := "";
      message := null;
      thrown := None;
    }

    method BeginMessage(path: string) returns (thrown: Option<Exception>)
      requires Valid()
      modifies this
      ensures Valid() && KeepsToItself()
      ensures Obeys(old(View()), Cmd.BeginMessage(path), thrown, View())
    {
      if messageInProgress {
        return Some(MessageInProgress);
      }
      message := new LoMessage(allocs);
      allocs := allocs + 1;
      messageInProgress := true;
      addressPattern := path;
      thrown := None;
    }

    /** Every member of the `add*` family: they differ in the tag only. */
    method Add(a: Arg) returns (thrown: Option<Exception>)
      requires Valid()
      requires messageInProgress ==> message != null
      modifies message
      ensures Valid()
      ensures Obeys(old(View()), Cmd.Add(a), thrown, View())
    {
      if !messageInProgress {
        return Some(MessageNotInProgress);
      }
      message.args := message.args + [OnWire(a)];
      thrown := None;
    }

    method EndMessage() returns (thrown: Option<Exception>)
      requires Valid()
      requires messageInProgress && bundleInProgress ==> message != null && bundles != []
      modifies this, bundles
      ensures Valid() && KeepsToItself()
      ensures Obeys(old(View()), Cmd.EndMessage, thrown, View())
    {
      if !messageInProgress {
        return Some(MessageNotInProgress);
      }
      if bundleInProgress {
        var path := CStr(addressPattern);
        AppendMessage(path);
        addressPattern := "";
      }
      messageInProgress := false;
      thrown := None;
    }

    /** `lo_bundle_add_message` on the top of the stack: the message changes hands. */
    method AppendMessage(path: string)
      requires Valid() && bundles != [] && message != null
      modifies this`frames, this`frozen, this`message, bundles
      ensures Valid() && bundles == old(bundles) && message == null
      ensures frames == AddTop(old(frames), MessageNode(old(message.id), path, old(message.args)))
    {
      var b := bundles[|bundles| - 1];
      ghost var n := MessageNode(message.id, path, message.args);
      b.elems := b.elems + [MessageElement(path, message)];
      frozen := frozen + {message};
      frames := AddTop(frames, n);
      message := null;
      forall k | 0 <= k < |bundles| ensures ShowsFrame(bundles, frames, k, closed, frozen) {
        assert old(ShowsFrame(bundles, frames, k, closed, frozen));
      }
      forall c | c in closed ensures ShowsAll(c.elems, c.content, closed, frozen) {
        assert old(ShowsAll(c.elems, c.content, closed, frozen));
      }
    }

    method BeginBundle() returns (thrown: Option<Exception>)
      requires Valid()
      modifies this, bundles
      ensures Valid() && KeepsToItself()
      ensures Obeys(old(View()), Cmd.BeginBundle, thrown, View())
    {
      if bundleInProgress {
        return Some(MessageInProgress);
      }
      PushBundle(IMMEDIATE);
      bundleInProgress := true;
      thrown := None;
    }

    method BeginBundleAt(tag: TimeTag) returns (thrown: Option<Exception>)
      requires Valid()
      modifies this, bundles
      ensures Valid() && KeepsToItself()
      ensures Obeys(old(View()), Cmd.BeginBundleAt(tag), thrown, View())
    {
      if messageInProgress {
        return Some(MessageInProgress);
      }
      PushBundle(tag);
      bundleInProgress := true;
      thrown := None;
    }

    /** A new bundle becomes the last element of the current one, and the current one itself. */
    method PushBundle(tag: TimeTag)
      requires Valid()
      modifies this`bundles, this`frames, this`allocs, bundles
      ensures Valid() && KeepsToItself()
      ensures frames == old(frames) + [Frame(old(allocs), tag, [])] && allocs == old(allocs) + 1
    {
      var b := new LoBundle(allocs, tag);
      allocs := allocs + 1;
      if |bundles| > 0 {
        var last := bundles[|bundles| - 1];
        last.elems := last.elems + [BundleElement(b)];
      }
      bundles := bundles + [b];
      frames := frames + [Frame(b.id, tag, [])];
      forall k | 0 <= k < |bundles| ensures ShowsFrame(bundles, frames, k, closed, frozen) {
        if k < |bundles| - 1 {
          assert old(ShowsFrame(bundles, frames, k, closed, frozen));
        }
      }
      forall c | c in closed ensures ShowsAll(c.elems, c.content, closed, frozen) {
        assert old(ShowsAll(c.elems, c.content, closed, frozen));
      }
    }

    method EndBundle() returns (thrown: Option<Exception>)
      requires Valid()
      modifies this, bundles
      ensures Valid() && KeepsToItself()
      ensures Obeys(old(View()), Cmd.EndBundle, thrown, View())
    {
      if !bundleInProgress {
        return Some(BundleNotInProgress);
      }
      if |bundles| > 1 {
        PopBundle();
      } else {
        bundleInProgress := false;
      }
      thrown := None;
    }

    method PopBundle()
      requires Valid() && |bundles| > 1
      modifies this`bundles, this`frames, this`closed, bundles
      ensures Valid() && bundles == old(bundles)[..old(|bundles|) - 1]
      ensures frames == Pop(old(frames))
    {
      var top := |bundles| - 1;
      ghost var b := bundles[top];
      assert ShowsFrame(bundles, frames, top, closed, frozen);
      b.content := frames[top].done;
      closed := closed + {b};
      bundles := bundles[..top];
      frames := Pop(frames);
      forall k | 0 <= k < |bundles| ensures ShowsFrame(bundles, frames, k, closed, frozen) {
        assert old(ShowsFrame(bundles, frames, k, closed, frozen));
        ghost var es, n := bundles[k].elems, |old(frames)[k].done|;
        assert ShowsAll(es[..n], old(frames)[k].done, closed, frozen);
        if k == top - 1 {
          ShowsSnoc(es[..n], old(frames)[k].done, es[n], Close(old(frames)[top]), closed, frozen);
          assert es == es[..n] + [es[n]];
        }
      }
      forall c | c in closed ensures ShowsAll(c.elems, c.content, closed, frozen) {
        if c == b {
          assert old(ShowsFrame(bundles, frames, top, closed, frozen));
        } else {
          assert old(ShowsAll(c.elems, c.content, closed, frozen));
        }
      }
    }

    method Perform(c: Cmd) returns (thrown: Option<Exception>)
      requires Valid() && !Step(View(), c).Undefined?
      modifies this, bundles, message
      ensures Valid() && KeepsToItself()
      ensures Obeys(old(View()), c, thrown, View())
    {
      match c
      case Setup(a) => thrown := Setup(a.host, a.port);
      case Send => thrown := Send();
      case Clear => thrown := Clear();
      case BeginMessage(path) => thrown := BeginMessage(path);
      case Add(a) => thrown := Add(a);
      case EndMessage => thrown := EndMessage();
      case BeginBundle => thrown := BeginBundle();
      case BeginBundleAt(tag) => thrown := BeginBundleAt(tag);
      case EndBundle => thrown := EndBundle();
    }

    /** A client that catches every exception and goes on: the object does what `Run` says. */
    method Replay(cmds: seq<Cmd>)
      requires Valid() && Run(View(), cmds).Some?
      modifies this, bundles, message
      ensures Valid() && View() == Run(old(View()), cmds).value
    {
      var i := 0;
      while i < |cmds|
        invariant i <= |cmds| && Valid() && KeepsToItself()
        invariant Run(View(), cmds[i..]) == Run(old(View()), cmds)
      {
        assert cmds[i..][0] == cmds[i] && cmds[i..][1..] == cmds[i + 1..];
        var thrown := Perform(cmds[i]);
        i := i + 1;
      }
    }
  }
}
