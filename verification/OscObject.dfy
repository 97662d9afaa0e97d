/** OSC objects on the heap: nested objects and recursive dispatch. */
module OscObjects {
  import opened OscTypes
  import opened ObjectGraph
  import opened ObjectLists
  import opened Dispatch
  import opened DispatchLoop

  /** The names behind a vector of pointers. */
  function SlotsOf(objects: seq<OscObject?>): (xs: Slots)
    ensures |xs| == |objects|
    ensures forall i :: 0 <= i < |xs| ==> xs[i] == Name(objects[i])
  {
    seq(|objects|, i requires 0 <= i < |objects| => Name(objects[i]))
  }

  function Name(o: OscObject?): Option<nat> {
    if o == null then None else Some(o.id)
  }

  /** The objects of a program, by name; attached objects are among them. */
  ghost predicate World(w: map<nat, OscObject>)
    reads w.Values
  {
    && (forall x :: x in w ==> w[x].id == x)
    && (forall x :: x in w ==> Belong(w, w[x].objects))
  }

  ghost predicate Belong(w: map<nat, OscObject>, objects: seq<OscObject?>) {
    forall i :: 0 <= i < |objects| && objects[i] != null ==> objects[i].id in w && w[objects[i].id] == objects[i]
  }

  ghost function GraphOf(w: map<nat, OscObject>): (g: Graph)
    reads w.Values
  {
    map x | x in w :: SlotsOf(w[x].objects)
  }

  lemma SlotsErased(objects: seq<OscObject?>, i: nat)
    requires i < |objects|
    ensures SlotsOf(objects[..i] + objects[i + 1..]) == SlotsOf(objects)[..i] + SlotsOf(objects)[i + 1..]
  {
  }

  /** `std::find` on a vector of objects; `w` only says that different objects have different names. */
  method Find(objects: seq<OscObject?>, child: OscObject, ghost w: map<nat, OscObject>) returns (i: nat)
    requires Belong(w, objects) && child.id in w && w[child.id] == child
    ensures i <= |objects| && Some(child.id) !in SlotsOf(objects)[..i]
    ensures i < |objects| ==> objects[i] == child
  {
    i := 0;
    while i < |objects| && objects[i] != child
      invariant i <= |objects|
      invariant forall j :: 0 <= j < i ==> SlotsOf(objects)[j] != Some(child.id)
    {
      i := i + 1;
    }
  }

  class OscObject {
    const id: nat
    var objects: seq<OscObject?>

    constructor (id: nat)
      ensures this.id == id && objects == []
    {
      this.id := id;
      objects := [];
    }

    /** Replaces the vector of this object and of no other. */
    method SetObjects(vector: seq<OscObject?>, ghost w: map<nat, OscObject>)
      requires World(w) && id in w && w[id] == this && Belong(w, vector)
      modifies this
      ensures World(w) && objects == vector
      ensures GraphOf(w) == old(GraphOf(w))[id := SlotsOf(vector)]
    {
      objects := vector;
      forall x | x in w && x != id ensures w[x] != this {
        assert w[x].id == x;
      }
    }

    /** `w` holds all objects of the program; different objects have different names. */
    method AddOscObject(child: OscObject?, ghost w: map<nat, OscObject>)
      requires World(w) && id in w && w[id] == this && (child != null ==> child.id in w && w[child.id] == child)
      modifies this
      ensures objects == if child == null then old(objects) else old(objects) + [child]
      ensures World(w) && GraphOf(w) == Apply(old(GraphOf(w)), AttachOp(id, Name(child)))
    {
      ghost var g := GraphOf(w);
      assert g[id := g[id]] == g;
      if child == null {
        return;
      }
      ghost var xs := SlotsOf(objects);
      SetObjects(objects + [child], w);
      assert SlotsOf(objects) == xs + [Name(child)];
    }

    method RemoveOscObject(child: OscObject?, ghost w: map<nat, OscObject>)
      requires World(w) && id in w && w[id] == this && (child != null ==> child.id in w && w[child.id] == child)
      modifies this
      ensures World(w) && GraphOf(w) == Apply(old(GraphOf(w)), DetachOp(id, Name(child)))
      ensures child == null || child !in old(objects) ==> objects == old(objects)
    {
      ghost var g := GraphOf(w);
      assert g[id := g[id]] == g;
      if child == null {
        return;
      }
      var i := Find(objects, child, w);
      ghost var xs := SlotsOf(objects);
      RemovedAt(xs, Name(child), i);
      if i < |objects| {
        EraseAt(i, w);
      }
    }

    method RemoveAllOscObjects(ghost w: map<nat, OscObject>)
      requires World(w) && id in w && w[id] == this
      modifies this
      ensures objects == []
      ensures World(w) && GraphOf(w) == Apply(old(GraphOf(w)), DetachAllOp(id))
    {
      SetObjects([], w);
    }

    /** `m_objects.erase(iter)` */
    method EraseAt(i: nat, ghost w: map<nat, OscObject>)
      requires World(w) && id in w && w[id] == this && i < |objects|
      modifies this
      ensures World(w) && |objects| == |old(objects)| - 1
      ensures SlotsOf(objects) == old(SlotsOf(objects))[..i] + old(SlotsOf(objects))[i + 1..]
      ensures GraphOf(w) == old(GraphOf(w))[id := SlotsOf(objects)]
    {
      ghost var xs := SlotsOf(objects);
      SetObjects(objects[..i] + objects[i + 1..], w);
      assert SlotsOf(objects) == xs[..i] + xs[i + 1..];
    }

    /** One iteration on a live entry: hands the message on to the `i`-th attached object. */
    method Ask(i: nat, decide: Decide, h': seq<Handler>, ghost w: map<nat, OscObject>, ghost g: Graph, ghost h: seq<Handler>)
      returns (handled: bool, h'': seq<Handler>)
      requires World(w) && id in w && w[id] == this && i < |objects| && objects[i] != null
      requires Looping(g, GraphOf(w), id, h, h', decide, i)
      modifies w.Values
      ensures World(w) && |objects| == |old(objects)|
      ensures if handled then Dispatched(g, GraphOf(w), id, h, h'', true, decide)
              else Looping(g, GraphOf(w), id, h, h'', decide, i + 1)
      decreases Height(Clean(g), id), 0
    {
      ghost var b := GraphOf(w);
      LoopKid(g, b, id, h, h', decide, i);
      handled, h'' := objects[i].ProcessOsc(decide, h', w);
      if handled {
        LoopTaken(g, b, GraphOf(w), id, h, h', h'', decide, i);
      } else {
        LoopRefused(g, b, GraphOf(w), id, h, h', h'', decide, i);
      }
    }

    /**
     Offers a message to the attached objects, depth first, then to the object itself, until someone accepts.
     `h` lists the handlers called for this message so far; `decide` is what the handlers answer.
     */
    method ProcessOsc(decide: Decide, h: seq<Handler>, ghost w: map<nat, OscObject>)
      returns (handled: bool, h': seq<Handler>)
      requires World(w) && id in w && w[id] == this && Dispatchable(GraphOf(w))
      modifies w.Values
      ensures World(w) && Dispatched(old(GraphOf(w)), GraphOf(w), id, h, h', handled, decide)
      decreases Height(Clean(GraphOf(w)), id), 1
    {
      ghost var g := GraphOf(w);
      LoopStarts(g, id, h, decide);
      h' := h;
      var i := 0;
      while i < |objects|
        invariant World(w) && i <= |objects|
        invariant Looping(g, GraphOf(w), id, h, h', decide, i)
        decreases |objects| - i
      {
        if objects[i] != null {
          handled, h' := Ask(i, decide, h', w, g, h);
          if handled {
            return;
          }
          i := i + 1;
        } else {
          LoopErased(g, GraphOf(w), id, h, h', decide, i);
          EraseAt(i, w);
        }
      }
      LoopEnded(g, GraphOf(w), id, h, h', decide, i);
      handled := decide(h', Object(id));
      h' := h' + [Object(id)];
    }
  }

  /** Adding and removing, on the heap: the objects end up as `ApplyAll` says. */
  method Rewire(ops: seq<Op>, w: map<nat, OscObject>)
    requires World(w)
    requires forall i :: 0 <= i < |ops| && !ops[i].DetachAllOp? && ops[i].child.Some? ==> ops[i].child.value in w
    modifies w.Values
    ensures World(w) && GraphOf(w) == ApplyAll(old(GraphOf(w)), ops)
  {
    var k := 0;
    while k < |ops|
      invariant k <= |ops| && World(w)
      invariant ApplyAll(GraphOf(w), ops[k..]) == ApplyAll(old(GraphOf(w)), ops)
    {
      assert ops[k..][0] == ops[k] && ops[k..][1..] == ops[k + 1..];
      RewireOne(ops[k], w);
      k := k + 1;
    }
  }

  method RewireOne(op: Op, w: map<nat, OscObject>)
    requires World(w) && (!op.DetachAllOp? && op.child.Some? ==> op.child.value in w)
    modifies w.Values
    ensures World(w) && GraphOf(w) == Apply(old(GraphOf(w)), op)
  {
    if op.parent !in w {
      return;
    }
    var parent := w[op.parent];
    if op.DetachAllOp? {
      parent.RemoveAllOscObjects(w);
    } else {
      var child: OscObject? := if op.child.Some? then w[op.child.value] else null;
      if op.AttachOp? {
        parent.AddOscObject(child, w);
      } else {
        parent.RemoveOscObject(child, w);
      }
    }
  }
}
