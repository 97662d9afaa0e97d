/** Moving time tags by milliseconds, in 32.32 fixed point. */
module TimeTags {
  import opened OscTypes

  /** The truncated decimal the source uses for 2^-32 seconds. */
  const UNIT: real := 0.00000000023283064365

  /** The time of a tag in units of 2^-32 seconds. */
  function Ticks(t: TimeTag): int {
    t.sec * TWO_32 + t.frac
  }

  /** `ms` milliseconds in the same units, exactly. */
  function Exact(ms: Word): real {
    ms as real * TWO_32 as real / 1000.0
  }

  function Increment(ms: Word): real {
    ((ms % 1000) as real * 0.001) / UNIT
  }

  /** Neither part of the tag runs over. */
  predicate Fits(t: TimeTag, ms: Word) {
    t.sec + ms / 1000 < TWO_32 && t.frac as real + Increment(ms) < TWO_32 as real
  }

  /** `TimeTag::add`: seconds wrap around; a fraction that does not fit 32 bits is an undefined conversion. */
  function Advanced(t: TimeTag, ms: Word): Option<TimeTag> {
    var frac := (t.frac as real + Increment(ms)).Floor;
    if frac < TWO_32 then Some(TimeTag((t.sec + ms / 1000) % TWO_32, frac)) else None
  }

  /** How far `add` is off, in units of 2^-32 seconds. */
  function Error(t: TimeTag, ms: Word, r: TimeTag): real {
    (Ticks(r) - Ticks(t)) as real - Exact(ms)
  }

  /** The constant is a little small, so the increment is a little large. */
  lemma IncrementClose(ms: Word)
    ensures Exact(ms) <= (ms / 1000 * TWO_32) as real + Increment(ms) < Exact(ms) + 0.08
  {
  }

  /**
   Accuracy: `add` moves the time by the exact amount, within one unit, exactly when neither part runs over.
   There is no carry from the fraction to the seconds.
   */
  lemma AddAccurate(t: TimeTag, ms: Word)
    ensures Fits(t, ms) <==>
            Advanced(t, ms).Some? && -1.0 < Error(t, ms, Advanced(t, ms).value) < 1.0
    ensures Fits(t, ms) ==> Error(t, ms, Advanced(t, ms).value) < 0.08
  {
    IncrementClose(ms);
    var x := t.frac as real + Increment(ms);
    if Advanced(t, ms).Some? {
      var r := Advanced(t, ms).value;
      assert r.frac as real <= x < r.frac as real + 1.0;
      var sec := t.sec + ms / 1000;
      assert sec < TWO_32 ==> r.sec == sec;
      assert sec >= TWO_32 ==> r.sec == sec - TWO_32;
    }
  }

  /** Half a second added to half a second is not a whole one. */
  lemma NoCarry(sec: Word)
    ensures Advanced(TimeTag(sec, 0x8000_0000), 500).None?
  {
  }

  // Sequences of additions

  function AdvancedAll(t: TimeTag, mss: seq<Word>): Option<TimeTag>
    decreases |mss|
  {
    if mss == [] then Some(t)
    else match Advanced(t, mss[0]) case Some(r) => AdvancedAll(r, mss[1..]) case None => None
  }

  predicate FitsAll(t: TimeTag, mss: seq<Word>)
    decreases |mss|
  {
    mss == [] ||
    (Fits(t, mss[0]) && match Advanced(t, mss[0]) case Some(r) => FitsAll(r, mss[1..]) case None => false)
  }

  function ExactAll(mss: seq<Word>): real {
    if mss == [] then 0.0 else Exact(mss[0]) + ExactAll(mss[1..])
  }

  /** Drift: after any sequence of `n` additions that fit, the time is off by less than `n` units. */
  lemma {:induction false} DriftBounded(t: TimeTag, mss: seq<Word>)
    requires FitsAll(t, mss)
    ensures AdvancedAll(t, mss).Some?
    ensures var drift := (Ticks(AdvancedAll(t, mss).value) - Ticks(t)) as real - ExactAll(mss);
            && -(|mss| as real) <= drift <= 0.08 * |mss| as real
            && (mss != [] ==> -(|mss| as real) < drift < |mss| as real)
    decreases |mss|
  {
    if mss != [] {
      AddAccurate(t, mss[0]);
      DriftBounded(Advanced(t, mss[0]).value, mss[1..]);
    }
  }

  /** A tag variable, as the C++ struct is used. */
  class TimeTagVar {
    var tag: TimeTag

    constructor (sec: Word, frac: Word)
      ensures tag == TimeTag(sec, frac)
    {
      tag := TimeTag(sec, frac);
    }

    /** Converting a fraction of 2^32 or more to 32 bits is undefined. */
    method Add(ms: Word)
      requires tag.frac as real + Increment(ms) < TWO_32 as real
      modifies this
      ensures Some(tag) == Advanced(old(tag), ms)
      ensures old(tag).sec + ms / 1000 < TWO_32 <==> -1.0 < Error(old(tag), ms, tag) < 1.0
    {
      AddAccurate(tag, ms);
      var sec := (tag.sec + ms / 1000) % TWO_32;
      var frac := (tag.frac as real + ((ms % 1000) as real * 0.001) / UNIT).Floor;
      tag := TimeTag(sec, frac);
    }
  }
}
