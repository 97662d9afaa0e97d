/** OSC packets as values: the packet trees of the OSC 1.0 specification ("OSC Packets", "OSC Bundles"). */
module Packets {
  import opened OscTypes

  datatype Packet =
    | Message(path: string, args: seq<Arg>)
    | Bundle(tag: TimeTag, elems: seq<Packet>)

  /** A packet tree whose nodes carry the serial number of the liblo allocation behind them. */
  datatype Node =
    | MessageNode(id: nat, path: string, args: seq<Arg>)
    | BundleNode(id: nat, tag: TimeTag, elems: seq<Node>)

  // Forgetting allocations

  function Strip(n: Node): Packet
    decreases n, 1
  {
    match n
    case MessageNode(_, path, args) => Message(path, args)
    case BundleNode(_, tag, elems) => Bundle(tag, StripAll(elems))
  }

  function StripAll(ns: seq<Node>): (ps: seq<Packet>)
    decreases ns, 0
  {
    if ns == [] then [] else [Strip(ns[0])] + StripAll(ns[1..])
  }

  lemma {:induction false} StripAllConcat(xs: seq<Node>, ys: seq<Node>)
    ensures StripAll(xs + ys) == StripAll(xs) + StripAll(ys)
  {
    if xs == [] {
      assert xs + ys == ys;
    } else {
      var zs := xs + ys;
      assert zs[0] == xs[0] && zs[1..] == xs[1..] + ys;
      StripAllConcat(xs[1..], ys);
      Associative([Strip(xs[0])], StripAll(xs[1..]), StripAll(ys));
    }
  }

  // The allocations behind a tree, in preorder

  function Ids(n: Node): (r: seq<nat>)
    decreases n, 1
  {
    match n
    case MessageNode(id, _, _) => [id]
    case BundleNode(id, _, elems) => [id] + IdsAll(elems)
  }

  function IdsAll(ns: seq<Node>): (r: seq<nat>)
    decreases ns, 0
  {
    if ns == [] then [] else Ids(ns[0]) + IdsAll(ns[1..])
  }

  lemma {:induction false} IdsAllConcat(xs: seq<Node>, ys: seq<Node>)
    ensures IdsAll(xs + ys) == IdsAll(xs) + IdsAll(ys)
  {
    if xs == [] {
      assert xs + ys == ys;
    } else {
      var zs := xs + ys;
      assert zs[0] == xs[0] && zs[1..] == xs[1..] + ys;
      IdsAllConcat(xs[1..], ys);
      Associative(Ids(xs[0]), IdsAll(xs[1..]), IdsAll(ys));
    }
  }

  // The outline of a packet: its preorder, every entry labelled with its depth

  datatype Item = Open(tag: TimeTag) | Leaf(path: string, args: seq<Arg>)
  datatype Entry = Entry(depth: nat, item: Item)

  function Outline(p: Packet, depth: nat): (r: seq<Entry>)
    decreases p, 1
  {
    match p
    case Message(path, args) => [Entry(depth, Leaf(path, args))]
    case Bundle(tag, elems) => [Entry(depth, Open(tag))] + OutlineAll(elems, depth + 1)
  }

  function OutlineAll(ps: seq<Packet>, depth: nat): (r: seq<Entry>)
    decreases ps, 0
  {
    if ps == [] then [] else Outline(ps[0], depth) + OutlineAll(ps[1..], depth)
  }

  lemma {:induction false} OutlineAllConcat(xs: seq<Packet>, ys: seq<Packet>, depth: nat)
    ensures OutlineAll(xs + ys, depth) == OutlineAll(xs, depth) + OutlineAll(ys, depth)
  {
    if xs == [] {
      assert xs + ys == ys;
    } else {
      var zs := xs + ys;
      assert zs[0] == xs[0] && zs[1..] == xs[1..] + ys;
      OutlineAllConcat(xs[1..], ys, depth);
      Associative(Outline(xs[0], depth), OutlineAll(xs[1..], depth), OutlineAll(ys, depth));
    }
  }

  /** An entry at `depth` and the deeper entries below it. */
  ghost predicate Block(es: seq<Entry>, depth: nat) {
    es != [] && es[0].depth == depth && forall i :: 1 <= i < |es| ==> es[i].depth > depth
  }

  /** Nothing above `depth`, and a first entry exactly there. */
  ghost predicate Blocks(es: seq<Entry>, depth: nat) {
    (es != [] ==> es[0].depth == depth) && forall i :: 0 <= i < |es| ==> es[i].depth >= depth
  }

  lemma {:induction false} OutlineDepths(p: Packet, depth: nat)
    ensures Block(Outline(p, depth), depth)
    decreases p, 1
  {
    if p.Bundle? {
      OutlineAllDepths(p.elems, depth + 1);
    }
  }

  lemma {:induction false} OutlineAllDepths(ps: seq<Packet>, depth: nat)
    ensures Blocks(OutlineAll(ps, depth), depth)
    ensures ps != [] ==> OutlineAll(ps, depth) != []
    decreases ps, 0
  {
    if ps != [] {
      OutlineDepths(ps[0], depth);
      OutlineAllDepths(ps[1..], depth);
    }
  }

  /** A block followed by further blocks can be split off in one way only. */
  lemma SplitUnique(a: seq<Entry>, b: seq<Entry>, c: seq<Entry>, d: seq<Entry>, depth: nat)
    requires a + b == c + d
    requires Block(a, depth) && Block(c, depth) && Blocks(b, depth) && Blocks(d, depth)
    ensures a == c && b == d
  {
    var s := a + b;
    assert b != [] ==> s[|a|] == b[0];
    assert d != [] ==> (c + d)[|c|] == d[0];
    assert forall i :: 0 <= i < |c| ==> s[i] == c[i];
    assert |a| == |c|;
    assert a == s[..|a|] && c == (c + d)[..|c|];
    assert b == s[|a|..] && d == (c + d)[|c|..];
  }

  /** The outline determines the packet: no two packets share one. */
  lemma {:induction false} OutlineInjective(p: Packet, q: Packet, depth: nat)
    requires Outline(p, depth) == Outline(q, depth)
    ensures p == q
    decreases p, 1
  {
    assert Outline(p, depth)[0] == Outline(q, depth)[0];
    if p.Bundle? {
      assert Outline(p, depth)[1..] == OutlineAll(p.elems, depth + 1);
      assert Outline(q, depth)[1..] == OutlineAll(q.elems, depth + 1);
      OutlineAllInjective(p.elems, q.elems, depth + 1);
    }
  }

  lemma {:induction false} OutlineAllInjective(ps: seq<Packet>, qs: seq<Packet>, depth: nat)
    requires OutlineAll(ps, depth) == OutlineAll(qs, depth)
    ensures ps == qs
    decreases ps, 0
  {
    OutlineAllDepths(ps, depth);
    OutlineAllDepths(qs, depth);
    if ps != [] {
      OutlineDepths(ps[0], depth);
      OutlineDepths(qs[0], depth);
      OutlineAllDepths(ps[1..], depth);
      OutlineAllDepths(qs[1..], depth);
      SplitUnique(Outline(ps[0], depth), OutlineAll(ps[1..], depth), Outline(qs[0], depth), OutlineAll(qs[1..], depth), depth);
      OutlineInjective(ps[0], qs[0], depth);
      OutlineAllInjective(ps[1..], qs[1..], depth);
      assert ps == [ps[0]] + ps[1..] && qs == [qs[0]] + qs[1..];
    }
  }

  // What reaches liblo of a packet that was asked for

  function Wire(p: Packet): Packet
    decreases p, 1
  {
    match p
    case Message(path, args) => Message(CStr(path), OnWireAll(args))
    case Bundle(tag, elems) => Bundle(tag, WireAll(elems))
  }

  function WireAll(ps: seq<Packet>): (r: seq<Packet>)
    decreases ps, 0
  {
    if ps == [] then [] else [Wire(ps[0])] + WireAll(ps[1..])
  }

  /** No string in the argument holds a NUL. */
  predicate Plain(a: Arg) {
    match a
    case String(s) => '\0' !in s
    case Symbol(s) => '\0' !in s
    case _ => true
  }

  /** No address pattern and no string argument holds a NUL. */
  predicate NulFree(p: Packet)
    decreases p, 1
  {
    match p
    case Message(path, args) =>
      '\0' !in path && forall i :: 0 <= i < |args| ==> Plain(args[i])
    case Bundle(_, elems) => NulFreeAll(elems)
  }

  predicate NulFreeAll(ps: seq<Packet>)
    decreases ps, 0
  {
    ps == [] || (NulFree(ps[0]) && NulFreeAll(ps[1..]))
  }

  lemma {:induction false} WireFaithful(p: Packet)
    ensures Wire(p) == p <==> NulFree(p)
    decreases p, 1
  {
    match p
    case Message(path, args) =>
      var w := OnWireAll(args);
      OnWireEach(args);
      assert w == args <==> forall i :: 0 <= i < |args| ==> w[i] == args[i];
    case Bundle(_, elems) => WireAllFaithful(elems);
  }

  lemma {:induction false} WireAllFaithful(ps: seq<Packet>)
    ensures WireAll(ps) == ps <==> NulFreeAll(ps)
    decreases ps, 0
  {
    if ps != [] {
      WireFaithful(ps[0]);
      WireAllFaithful(ps[1..]);
      assert ps == [ps[0]] + ps[1..];
      if WireAll(ps) == ps {
        assert WireAll(ps)[0] == ps[0] && WireAll(ps)[1..] == ps[1..];
      }
    }
  }
}
