/** The `m_objects` vectors: attaching, detaching, and erasing NULL entries while iterating. */
module ObjectLists {
  import opened OscTypes
  import opened ObjectGraph

  /** A vector of object pointers; `None` is NULL. */
  type Slots = seq<Option<nat>>

  function NonNull(xs: Slots): seq<nat> {
    if xs == [] then []
    else if xs[0].None? then NonNull(xs[1..])
    else [xs[0].value] + NonNull(xs[1..])
  }

  ghost predicate NoNull(xs: Slots) {
    forall i :: 0 <= i < |xs| ==> xs[i].Some?
  }

  /** The vector after a pass that stopped at its `k`-th object: the NULLs before it are gone, nothing else. */
  function Sweep(xs: Slots, k: nat): Slots {
    if xs == [] then []
    else if xs[0].None? then Sweep(xs[1..], k)
    else if k == 0 then xs
    else [xs[0]] + Sweep(xs[1..], k - 1)
  }

  /** Some pass, or none, took `xs` to `ys`. */
  ghost predicate Swept(xs: Slots, ys: Slots) {
    ys == xs || exists k :: ys == Sweep(xs, k)
  }

  lemma NonNullCons(x: Option<nat>, xs: Slots)
    requires x.Some?
    ensures NonNull([x] + xs) == [x.value] + NonNull(xs)
  {
    assert ([x] + xs)[1..] == xs;
  }

  lemma {:induction false} NonNullConcat(xs: Slots, ys: Slots)
    ensures NonNull(xs + ys) == NonNull(xs) + NonNull(ys)
  {
    if xs == [] {
      assert xs + ys == ys;
    } else {
      assert (xs + ys)[0] == xs[0] && (xs + ys)[1..] == xs[1..] + ys;
      NonNullConcat(xs[1..], ys);
    }
  }

  lemma {:induction false} NonNullFull(xs: Slots)
    requires NoNull(xs)
    ensures |NonNull(xs)| == |xs|
    ensures forall i :: 0 <= i < |xs| ==> xs[i] == Some(NonNull(xs)[i])
  {
    if xs != [] {
      NonNullFull(xs[1..]);
    }
  }

  /** A pass keeps the objects and their order. */
  lemma {:induction false} SweepKeeps(xs: Slots, k: nat)
    ensures NonNull(Sweep(xs, k)) == NonNull(xs)
  {
    if xs != [] {
      if xs[0].None? {
        SweepKeeps(xs[1..], k);
      } else if k > 0 {
        SweepKeeps(xs[1..], k - 1);
        NonNullCons(xs[0], Sweep(xs[1..], k - 1));
      }
    }
  }

  /** A pass over a vector whose NULLs come after the `k`-th object changes nothing. */
  lemma {:induction false} SweepIdle(xs: Slots, k: nat)
    requires k <= |xs| && NoNull(xs[..k]) && (k < |xs| ==> xs[k].Some?)
    ensures Sweep(xs, k) == xs
  {
    if k > 0 {
      assert xs[0] == xs[..k][0];
      assert xs[1..][..k - 1] == xs[..k][1..];
      SweepIdle(xs[1..], k - 1);
    }
  }

  lemma {:induction false} SweepFull(xs: Slots, k: nat)
    requires NoNull(xs)
    ensures Sweep(xs, k) == xs
  {
    if xs != [] && k > 0 {
      SweepFull(xs[1..], k - 1);
    }
  }

  lemma {:induction false} SweepAll(xs: Slots, k: nat)
    requires k >= |NonNull(xs)|
    ensures NoNull(Sweep(xs, k)) && Sweep(xs, k) == Sweep(xs, |NonNull(xs)|)
  {
    if xs != [] {
      SweepAll(xs[1..], if xs[0].None? then k else k - 1);
    }
  }

  /** Erasing the NULL a pass is at, after `i` objects, is a step of that pass. */
  lemma {:induction false} SweepErase(xs: Slots, i: nat, k: nat)
    requires i < |xs| && NoNull(xs[..i]) && xs[i].None? && i <= k
    ensures Sweep(xs[..i] + xs[i + 1..], k) == Sweep(xs, k)
    decreases i
  {
    var ys := xs[..i] + xs[i + 1..];
    if i == 0 {
      assert ys == xs[1..];
    } else {
      assert xs[0] == xs[..i][0];
      assert xs[1..][..i - 1] == xs[..i][1..];
      SweepErase(xs[1..], i - 1, k - 1);
      assert ys[1..] == xs[1..][..i - 1] + xs[1..][i..];
    }
  }

  lemma SweepCons(x: Option<nat>, xs: Slots, k: nat)
    requires x.Some? && k > 0
    ensures Sweep([x] + xs, k) == [x] + Sweep(xs, k - 1)
  {
    assert ([x] + xs)[1..] == xs;
  }

  /** Two passes over a vector do what the longer of them does. */
  lemma {:induction false} SweepTwice(xs: Slots, k: nat, l: nat)
    ensures Sweep(Sweep(xs, k), l) == Sweep(xs, if k < l then l else k)
  {
    if xs != [] {
      if xs[0].None? {
        SweepTwice(xs[1..], k, l);
      } else if k > 0 && l > 0 {
        SweepTwice(xs[1..], k - 1, l - 1);
        SweepCons(xs[0], Sweep(xs[1..], k - 1), l);
      }
    }
  }

  lemma SweptTrans(xs: Slots, ys: Slots, zs: Slots)
    requires Swept(xs, ys) && Swept(ys, zs)
    ensures Swept(xs, zs)
  {
    if ys != xs && zs != ys {
      var k :| ys == Sweep(xs, k);
      var l :| zs == Sweep(ys, l);
      SweepTwice(xs, k, l);
    }
  }

  lemma SweptFacts(xs: Slots, ys: Slots)
    requires Swept(xs, ys)
    ensures NonNull(ys) == NonNull(xs)
    ensures NoNull(xs) ==> ys == xs
  {
    if ys != xs {
      var k :| ys == Sweep(xs, k);
      SweepKeeps(xs, k);
      if NoNull(xs) {
        SweepFull(xs, k);
      }
    }
  }

  // Attaching and detaching

  /** `addOscObject` ignores NULL. */
  function Added(xs: Slots, c: Option<nat>): Slots {
    if c.None? then xs else xs + [c]
  }

  /** `removeOscObject` ignores NULL and erases the first occurrence. */
  function Removed(xs: Slots, c: Option<nat>): Slots {
    if c.None? || xs == [] then xs
    else if xs[0] == c then xs[1..]
    else [xs[0]] + Removed(xs[1..], c)
  }

  lemma {:induction false} RemovedAt(xs: Slots, c: Option<nat>, i: nat)
    requires c.Some? && i <= |xs| && c !in xs[..i] && (i < |xs| ==> xs[i] == c)
    ensures Removed(xs, c) == if i == |xs| then xs else xs[..i] + xs[i + 1..]
    decreases i
  {
    if i > 0 {
      assert xs[0] == xs[..i][0] && xs[1..][..i - 1] == xs[..i][1..];
      RemovedAt(xs[1..], c, i - 1);
    }
  }

  /** NULL is neither added nor removed, and removing an object that is not attached changes nothing. */
  lemma {:induction false} Ignored(xs: Slots, c: Option<nat>)
    ensures Added(xs, None) == xs
    ensures c.None? || c !in xs <==> Removed(xs, c) == xs
  {
    if c.Some? && xs != [] {
      if xs[0] == c {
        assert |Removed(xs, c)| == |xs| - 1;
      } else {
        Ignored(xs[1..], c);
        assert xs == [xs[0]] + xs[1..];
        assert c in xs <==> c in xs[1..];
        assert Removed(xs, c)[1..] == Removed(xs[1..], c);
      }
    }
  }

  /** Adding an object that was not attached and removing it again gives the vector back. */
  lemma AddRemove(xs: Slots, c: nat)
    requires Some(c) !in xs
    ensures Removed(Added(xs, Some(c)), Some(c)) == xs
  {
    var ys := xs + [Some(c)];
    assert ys[..|xs|] == xs;
    RemovedAt(ys, Some(c), |xs|);
    assert ys[|xs| + 1..] == [];
  }

  /** In any case it gives back a vector with the same entries. */
  lemma {:induction false} AddRemoveEntries(xs: Slots, c: nat)
    ensures multiset(Removed(Added(xs, Some(c)), Some(c))) == multiset(xs)
  {
    var x := Some(c);
    if xs == [] {
      assert Removed([x], x) == [];
    } else {
      var ys := xs + [x];
      assert ys[0] == xs[0] && ys[1..] == xs[1..] + [x];
      assert xs == [xs[0]] + xs[1..];
      if xs[0] != x {
        AddRemoveEntries(xs[1..], c);
      }
    }
  }

  lemma {:induction false} NonNullMember(xs: Slots, x: nat)
    ensures x in NonNull(xs) <==> Some(x) in xs
  {
    if xs != [] {
      NonNullMember(xs[1..], x);
      assert Some(x) in xs <==> xs[0] == Some(x) || Some(x) in xs[1..];
    }
  }
}
