/**
 * The fixed-capacity ring buffer behind every rolling-average metric. The
 * buffer keeps the most recent samples in arrival order; a push into a full
 * buffer overwrites the oldest one. Samples are exact reals here.
 */
module RingBuffer {

  /** The number of slots (the capacity every `rb_capacity` computes). */
  const AVERAGE_CAPACITY: nat := 30

  /** The sum of the samples, accumulated from the front as a loop does. */
  function Sum(s: seq<real>): real
    decreases |s|
  {
    if |s| == 0 then 0.0 else Sum(s[..|s| - 1]) + s[|s| - 1]
  }

  /** The arithmetic mean, 0 for no samples. */
  function Mean(s: seq<real>): real
  {
    if |s| == 0 then 0.0 else Sum(s) / (|s| as real)
  }

  /** The logical contents after a push: the sample appended, the oldest dropped when full. */
  function Pushed(s: seq<real>, x: real): seq<real>
  {
    if |s| < AVERAGE_CAPACITY then s + [x] else s[1..] + [x]
  }

  /** The most recent (at most AVERAGE_CAPACITY) samples of a history of pushes. */
  function Window(history: seq<real>): seq<real>
  {
    if |history| <= AVERAGE_CAPACITY then history else history[|history| - AVERAGE_CAPACITY..]
  }

  /**
   * Pushing keeps the buffer equal to the last AVERAGE_CAPACITY samples
   * pushed: the contents of a buffer filled from empty by `history` is its
   * window, whatever the length of the history.
   */
  lemma {:induction false} PushedIsWindow(history: seq<real>, x: real)
    ensures Pushed(Window(history), x) == Window(history + [x])
    ensures |Window(history)| <= AVERAGE_CAPACITY
  {
    var h := history + [x];
    if |history| > AVERAGE_CAPACITY {
      var w := Window(history);
      assert w[1..] + [x] == h[|h| - AVERAGE_CAPACITY..];
    } else if |history| == AVERAGE_CAPACITY {
      assert history[1..] + [x] == h[|h| - AVERAGE_CAPACITY..];
    }
  }

  lemma {:induction false} SumCons(a: real, t: seq<real>)
    ensures Sum([a] + t) == a + Sum(t)
    decreases |t|
  {
    var s := [a] + t;
    if |t| > 0 {
      assert s[..|s| - 1] == [a] + t[..|t| - 1];
      SumCons(a, t[..|t| - 1]);
    } else {
      assert s[..|s| - 1] == [];
    }
  }

  /** A push adds the new sample to the sum and, on a full buffer, takes away the evicted oldest one. */
  lemma SumPushed(s: seq<real>, x: real)
    requires |s| <= AVERAGE_CAPACITY
    ensures |s| < AVERAGE_CAPACITY ==> Sum(Pushed(s, x)) == Sum(s) + x
    ensures |s| == AVERAGE_CAPACITY ==> Sum(Pushed(s, x)) == Sum(s) - s[0] + x
  {
    var p := Pushed(s, x);
    assert p[..|p| - 1] == if |s| < AVERAGE_CAPACITY then s else s[1..];
    if |s| == AVERAGE_CAPACITY {
      assert s == [s[0]] + s[1..];
      SumCons(s[0], s[1..]);
    }
  }

  lemma {:induction false} SumBounds(s: seq<real>, lo: real, hi: real)
    requires forall i :: 0 <= i < |s| ==> lo <= s[i] <= hi
    ensures lo * (|s| as real) <= Sum(s) <= hi * (|s| as real)
    decreases |s|
  {
    if |s| > 0 {
      var init := s[..|s| - 1];
      SumBounds(init, lo, hi);
      assert lo * (|s| as real) == lo * (|init| as real) + lo;
      assert hi * (|s| as real) == hi * (|init| as real) + hi;
    }
  }

  /** The mean of samples that all lie in [lo, hi] lies in [lo, hi] too. */
  lemma MeanBounds(s: seq<real>, lo: real, hi: real)
    requires |s| > 0
    requires forall i :: 0 <= i < |s| ==> lo <= s[i] <= hi
    ensures lo <= Mean(s) <= hi
  {
    SumBounds(s, lo, hi);
    var n := |s| as real;
    assert Mean(s) * n == Sum(s);
  }

  /** Two logical positions less than a capacity apart occupy different slots. */
  lemma SlotsDiffer(begin: nat, i: nat, j: nat)
    requires i < j < i + AVERAGE_CAPACITY
    ensures (begin + i) % AVERAGE_CAPACITY != (begin + j) % AVERAGE_CAPACITY
  {
  }

  /** Moving the start one slot on shifts every logical position by one. */
  lemma SlotAdvance(begin: nat, i: nat)
    requires begin < AVERAGE_CAPACITY
    ensures ((begin + 1) % AVERAGE_CAPACITY + i) % AVERAGE_CAPACITY == (begin + (i + 1)) % AVERAGE_CAPACITY
  {
  }

  /** Logical element i of `contents` lives in slot (begin + i) mod capacity of `slots`. */
  ghost predicate Layout(contents: seq<real>, slots: seq<real>, begin: nat)
  {
    && |slots| == AVERAGE_CAPACITY
    && |contents| <= AVERAGE_CAPACITY
    && forall i :: 0 <= i < |contents| ==> contents[i] == slots[(begin + i) % AVERAGE_CAPACITY]
  }

  /** Below capacity, the sample goes into the slot after the newest and the start stays. */
  lemma LayoutGrow(contents: seq<real>, slots: seq<real>, begin: nat, sample: real)
    requires Layout(contents, slots, begin) && |contents| < AVERAGE_CAPACITY
    ensures Layout(contents + [sample], slots[(begin + |contents|) % AVERAGE_CAPACITY := sample], begin)
  {
    var count := |contents|;
    var newSlots := slots[(begin + count) % AVERAGE_CAPACITY := sample];
    var pushed := contents + [sample];
    forall i | 0 <= i < count
      ensures pushed[i] == newSlots[(begin + i) % AVERAGE_CAPACITY]
    {
      SlotsDiffer(begin, i, count);
    }
  }

  /** At capacity, the sample overwrites the oldest slot and the start moves one slot on. */
  lemma LayoutFull(contents: seq<real>, slots: seq<real>, begin: nat, sample: real)
    requires begin < AVERAGE_CAPACITY
    requires Layout(contents, slots, begin) && |contents| == AVERAGE_CAPACITY
    ensures Layout(contents[1..] + [sample], slots[begin := sample], (begin + 1) % AVERAGE_CAPACITY)
  {
    var next := (begin + 1) % AVERAGE_CAPACITY;
    var newSlots := slots[begin := sample];
    var pushed := contents[1..] + [sample];
    forall i | 0 <= i < AVERAGE_CAPACITY
      ensures pushed[i] == newSlots[(next + i) % AVERAGE_CAPACITY]
    {
      SlotAdvance(begin, i);
      if i < AVERAGE_CAPACITY - 1 {
        SlotsDiffer(begin, 0, i + 1);
        assert pushed[i] == contents[i + 1];
      }
    }
  }

  /** The slots and start after `rb_push` lay out the pushed contents. */
  lemma PushLayout(contents: seq<real>, slots: seq<real>, begin: nat, sample: real, newBegin: nat)
    requires begin < AVERAGE_CAPACITY && Layout(contents, slots, begin)
    requires newBegin == if |contents| < AVERAGE_CAPACITY then begin else (begin + 1) % AVERAGE_CAPACITY
    ensures Layout(Pushed(contents, sample), slots[(begin + |contents|) % AVERAGE_CAPACITY := sample], newBegin)
  {
    if |contents| < AVERAGE_CAPACITY {
      LayoutGrow(contents, slots, begin, sample);
    } else {
      LayoutFull(contents, slots, begin, sample);
      assert (begin + |contents|) % AVERAGE_CAPACITY == begin;
    }
  }

  /** `Stat_Samples`: thirty slots, the slot of the oldest sample and the number of samples. */
  class Samples {
    const items: array<real>
    var begin: nat
    var count: nat
    ghost var Contents: seq<real>

    ghost predicate Valid()
      reads this, items
    {
      && items.Length == AVERAGE_CAPACITY
      && begin < AVERAGE_CAPACITY
      && |Contents| == count
      && Layout(Contents, items[..], begin)
    }

    /** A zero-initialised buffer, as the static statistics table starts. */
    constructor ()
      ensures Valid() && fresh(items)
      ensures begin == 0 && count == 0 && Contents == []
    {
      items := new real[AVERAGE_CAPACITY](_ => 0.0);
      begin, count := 0, 0;
      Contents := [];
    }

    /** `rb_at`: the i-th oldest sample; an index past the count is a failed assertion. */
    function At(i: nat): (x: real)
      reads this, items
      requires Valid() && i < count
      ensures x == Contents[i]
    {
      items[(begin + i) % AVERAGE_CAPACITY]
    }

    /** `rb_push`: store into the slot after the newest; grow, or move the start past the overwritten oldest sample. */
    method Push(sample: real)
      requires Valid()
      modifies this, items
      ensures Valid()
      ensures Contents == Pushed(old(Contents), sample)
      ensures old(count) < AVERAGE_CAPACITY ==> count == old(count) + 1 && begin == old(begin)
      ensures old(count) == AVERAGE_CAPACITY ==> count == AVERAGE_CAPACITY && begin == (old(begin) + 1) % AVERAGE_CAPACITY
    {
      ghost var slots := items[..];
      var slot := (begin + count) % AVERAGE_CAPACITY;
      var newBegin := if count < AVERAGE_CAPACITY then begin else (begin + 1) % AVERAGE_CAPACITY;
      var newCount := if count < AVERAGE_CAPACITY then count + 1 else count;
      PushLayout(Contents, slots, begin, sample, newBegin);
      items[slot] := sample;
      assert items[..] == slots[slot := sample];
      begin, count := newBegin, newCount;
      Contents := Pushed(Contents, sample);
    }

    /** `stat_samples_average`: 0 for an empty buffer, otherwise the sum of the samples over their count. */
    method Average() returns (avg: real)
      requires Valid()
      ensures avg == Mean(Contents)
    {
      var sum := 0.0;
      if count == 0 {
        return sum;
      }
      for i := 0 to count
        invariant sum == Sum(Contents[..i])
      {
        sum := sum + At(i);
        assert Contents[..i + 1][..i] == Contents[..i];
      }
      assert Contents[..count] == Contents;
      avg := sum / (count as real);
    }
  }
}
