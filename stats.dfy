/**
 * The statistics engine: a fixed table of sixteen tagged metrics (counters,
 * rolling averages and timers), the kind-checked operations that update one
 * entry each, and the periodic report with one line per metric.
 */
module Stats {

  import opened Wrappers
  import opened Ints
  import opened Text
  import opened TimeInterval
  import opened RingBuffer

  /** `Stat_Kind`. */
  datatype Kind = SkCounter | SkAverage | SkTimer

  /** The tagged union of a `Stat`: the arm in use is the entry's kind. */
  datatype Metric =
    | Counter(value: int)
    | Average(samples: Samples)
    | Timer(startedAt: u32)

  /** `Stat`: a description and a metric. */
  datatype Stat = Stat(description: string, metric: Metric)

  function KindOf(m: Metric): Kind
  {
    match m
    case Counter(_) => SkCounter
    case Average(_) => SkAverage
    case Timer(_) => SkTimer
  }

  // `Stat_Entry`: the indices of the table.
  const UPTIME: nat := 0
  const TICKS_COUNT: nat := 1
  const TICK_TIMES: nat := 2
  const MESSAGES_SENT: nat := 3
  const MESSAGES_RECEIVED: nat := 4
  const TICK_MESSAGES_SENT: nat := 5
  const TICK_MESSAGES_RECEIVED: nat := 6
  const BYTES_SENT: nat := 7
  const BYTES_RECEIVED: nat := 8
  const TICK_BYTE_SENT: nat := 9
  const TICK_BYTE_RECEIVED: nat := 10
  const PLAYERS_CURRENTLY: nat := 11
  const PLAYERS_JOINED: nat := 12
  const PLAYERS_LEFT: nat := 13
  const BOGUS_AMOGUS_MESSAGES: nat := 14
  const PLAYERS_REJECTED: nat := 15
  const NUMBER_OF_STAT_ENTRIES: nat := 16

  /** The kind of every entry, fixed when the table is defined. */
  const Kinds: seq<Kind> := [
    SkTimer, SkCounter, SkAverage, SkCounter, SkCounter, SkAverage, SkAverage, SkCounter,
    SkCounter, SkAverage, SkAverage, SkCounter, SkCounter, SkCounter, SkCounter, SkCounter]

  const Descriptions: seq<string> := [
    "Uptime",
    "Ticks count",
    "Average time to process a tick",
    "Total messages sent",
    "Total messages received",
    "Average messages sent per tick",
    "Average messages received per tick",
    "Total bytes sent",
    "Total bytes received",
    "Average bytes sent per tick",
    "Average bytes received per tick",
    "Currently players",
    "Total players joined",
    "Total players left",
    "Total bogus-amogus messages",
    "Total players rejected"]

  /** The abstract value of one metric: a counter's value, an average's samples, a timer's start. */
  datatype Value =
    | CounterValue(value: int)
    | AverageValue(samples: seq<real>)
    | TimerValue(startedAt: u32)

  function ValueKind(v: Value): Kind
  {
    match v
    case CounterValue(_) => SkCounter
    case AverageValue(_) => SkAverage
    case TimerValue(_) => SkTimer
  }

  ghost function ValueOf(m: Metric): (v: Value)
    reads if m.Average? then {m.samples} else {}
    ensures ValueKind(v) == KindOf(m)
  {
    match m
    case Counter(value) => CounterValue(value)
    case Average(samples) => AverageValue(samples.Contents)
    case Timer(startedAt) => TimerValue(startedAt)
  }

  /** The zero-initialised value of a metric of kind `k`, as the static table starts. */
  function InitialValue(k: Kind): Value
  {
    match k
    case SkCounter => CounterValue(0)
    case SkAverage => AverageValue([])
    case SkTimer => TimerValue(0)
  }

  /** What a report line shows after the description: a `"%d"` or duration text, or the `"%f"` of a mean. */
  datatype Shown = Chars(text: string) | Float(value: real)

  /**
   * `stat_display` on abstract values: a counter shows its value, an
   * average its mean, a timer the time elapsed since its start, with the
   * subtraction wrapping around as `uint32_t` does.
   */
  function Show(v: Value, nowMsecs: u32): Shown
  {
    match v
    case CounterValue(n) => Chars(IntToString(n))
    case AverageValue(s) => Float(Mean(s))
    case TimerValue(t) => Chars(IntervalText(WrapSub(nowMsecs, t)))
  }

  /** One printed line: the "Stats:" heading, or "  <description> <shown>". */
  datatype Line = Heading | Row(description: string, shown: Shown)

  /** `stat_display`: the text of one metric at time `nowMsecs`. */
  method Display(stat: Stat, nowMsecs: u32) returns (shown: Shown)
    requires stat.metric.Average? ==> stat.metric.samples.Valid()
    ensures shown == Show(ValueOf(stat.metric), nowMsecs)
  {
    match stat.metric
    case Counter(value) =>
      shown := Chars(IntToString(value));
    case Average(samples) =>
      var mean := samples.Average();
      shown := Float(mean);
    case Timer(startedAt) =>
      var text := DisplayTimeInterval(WrapSub(nowMsecs, startedAt));
      shown := Chars(text);
  }

  /** The report's rows for the first `n` entries, one per entry in table order. */
  function ReportRows(values: seq<Value>, nowMsecs: u32, n: nat): seq<Line>
    requires n <= |values| && n <= NUMBER_OF_STAT_ENTRIES
  {
    if n == 0 then [] else ReportRows(values, nowMsecs, n - 1) + [Row(Descriptions[n - 1], Show(values[n - 1], nowMsecs))]
  }

  /** Row k of the report is entry k's description and display. */
  lemma {:induction false} ReportRowsAt(values: seq<Value>, nowMsecs: u32, n: nat)
    requires n <= |values| && n <= NUMBER_OF_STAT_ENTRIES
    ensures |ReportRows(values, nowMsecs, n)| == n
    ensures forall k :: 0 <= k < n ==> ReportRows(values, nowMsecs, n)[k] == Row(Descriptions[k], Show(values[k], nowMsecs))
  {
    if n > 0 {
      var init := ReportRows(values, nowMsecs, n - 1);
      var last := Row(Descriptions[n - 1], Show(values[n - 1], nowMsecs));
      ReportRowsAt(values, nowMsecs, n - 1);
      assert ReportRows(values, nowMsecs, n) == init + [last];
      forall k | 0 <= k < n
        ensures ReportRows(values, nowMsecs, n)[k] == Row(Descriptions[k], Show(values[k], nowMsecs))
      {
        if k < n - 1 {
          assert (init + [last])[k] == init[k];
        }
      }
    }
  }

  /** The entries of the average kind, in table order: one ring buffer each. */
  const AverageEntries: seq<nat> :=
    [TICK_TIMES, TICK_MESSAGES_SENT, TICK_MESSAGES_RECEIVED, TICK_BYTE_SENT, TICK_BYTE_RECEIVED]

  /** The position of an average entry among AverageEntries. */
  function AverageSlot(i: nat): (k: nat)
    requires i < NUMBER_OF_STAT_ENTRIES && Kinds[i] == SkAverage
    ensures k < |AverageEntries| && AverageEntries[k] == i
  {
    if i == TICK_TIMES then 0
    else if i == TICK_MESSAGES_SENT then 1
    else if i == TICK_MESSAGES_RECEIVED then 2
    else if i == TICK_BYTE_SENT then 3
    else 4
  }

  /** Entry i of the statically initialised table, its average drawing on `pool`. */
  function InitialStat(i: nat, pool: seq<Samples>): Stat
    requires i < NUMBER_OF_STAT_ENTRIES && |pool| == |AverageEntries|
  {
    Stat(Descriptions[i],
      match Kinds[i]
      case SkCounter => Counter(0)
      case SkTimer => Timer(0)
      case SkAverage => Average(pool[AverageSlot(i)]))
  }

  /** Five fresh, empty and distinct ring buffers. */
  method NewBuffers() returns (pool: seq<Samples>)
    ensures |pool| == |AverageEntries|
    ensures forall k :: 0 <= k < |pool| ==>
      fresh(pool[k]) && fresh(pool[k].items) && pool[k].Valid() && pool[k].Contents == []
    ensures forall k, l :: 0 <= k < l < |pool| ==> pool[k] != pool[l] && pool[k].items != pool[l].items
  {
    var tickTimes := new Samples();
    var tickMessagesSent := new Samples();
    var tickMessagesReceived := new Samples();
    var tickByteSent := new Samples();
    var tickByteReceived := new Samples();
    pool := [tickTimes, tickMessagesSent, tickMessagesReceived, tickByteSent, tickByteReceived];
  }

  /** The process-wide `stats` table. */
  class Table {
    const entries: array<Stat>
    /** The ring buffers of the average entries, in table order. */
    ghost const buffers: seq<Samples>
    ghost var Repr: set<object>

    /**
     * Every entry has its description and kind, every average entry holds
     * the buffer of its own slot, and the buffers are valid and distinct.
     */
    ghost predicate Valid()
      reads this, Repr
    {
      && this in Repr && entries in Repr
      && entries.Length == NUMBER_OF_STAT_ENTRIES
      && |buffers| == |AverageEntries|
      && (forall k :: 0 <= k < |buffers| ==>
            buffers[k] in Repr && buffers[k].items in Repr && buffers[k].Valid())
      && (forall k, l :: 0 <= k < l < |buffers| ==>
            buffers[k] != buffers[l] && buffers[k].items != buffers[l].items)
      && (forall i :: 0 <= i < NUMBER_OF_STAT_ENTRIES ==>
            entries[i].description == Descriptions[i] && KindOf(entries[i].metric) == Kinds[i])
      && (forall i :: 0 <= i < NUMBER_OF_STAT_ENTRIES && entries[i].metric.Average? ==>
            entries[i].metric.samples == buffers[AverageSlot(i)])
    }

    /** The value of every entry, in table order. */
    ghost function Snapshot(): (vs: seq<Value>)
      reads this, Repr
      requires Valid()
      ensures |vs| == NUMBER_OF_STAT_ENTRIES
      ensures forall i :: 0 <= i < NUMBER_OF_STAT_ENTRIES ==> ValueKind(vs[i]) == Kinds[i]
    {
      seq(NUMBER_OF_STAT_ENTRIES, i requires 0 <= i < NUMBER_OF_STAT_ENTRIES && Valid() reads this, Repr =>
        ValueOf(entries[i].metric))
    }

    /** The table as the program starts: counters and timers at 0, every buffer empty. */
    constructor ()
      ensures Valid() && fresh(Repr)
      ensures Snapshot() == seq(NUMBER_OF_STAT_ENTRIES, i requires 0 <= i < NUMBER_OF_STAT_ENTRIES => InitialValue(Kinds[i]))
    {
      var pool := NewBuffers();
      buffers := pool;
      entries := new Stat[NUMBER_OF_STAT_ENTRIES](i requires 0 <= i < NUMBER_OF_STAT_ENTRIES => InitialStat(i, pool));
      Repr := {this, entries,
        pool[0], pool[0].items, pool[1], pool[1].items, pool[2], pool[2].items,
        pool[3], pool[3].items, pool[4], pool[4].items};
      new;
      InitialTableValid();
    }

    lemma InitialTableValid()
      requires this in Repr && entries in Repr && entries.Length == NUMBER_OF_STAT_ENTRIES
      requires |buffers| == |AverageEntries|
      requires forall i :: 0 <= i < NUMBER_OF_STAT_ENTRIES ==> entries[i] == InitialStat(i, buffers)
      requires forall k :: 0 <= k < |buffers| ==>
        buffers[k] in Repr && buffers[k].items in Repr && buffers[k].Valid() && buffers[k].Contents == []
      requires forall k, l :: 0 <= k < l < |buffers| ==> buffers[k] != buffers[l] && buffers[k].items != buffers[l].items
      ensures Valid()
      ensures Snapshot() == seq(NUMBER_OF_STAT_ENTRIES, i requires 0 <= i < NUMBER_OF_STAT_ENTRIES => InitialValue(Kinds[i]))
    {
    }

    /** The ring buffer of an average entry. */
    function BufferOf(entry: nat): (b: Samples)
      reads this, Repr
      requires Valid() && entry < NUMBER_OF_STAT_ENTRIES && Kinds[entry] == SkAverage
      ensures b == buffers[AverageSlot(entry)] && b in Repr && b.items in Repr && b.Valid()
    {
      entries[entry].metric.samples
    }

    /** `stat_push_sample`: push into the buffer of an average entry; no other entry changes. */
    method PushSample(entry: nat, sample: real)
      requires Valid() && entry < NUMBER_OF_STAT_ENTRIES && Kinds[entry] == SkAverage
      modifies BufferOf(entry), BufferOf(entry).items
      ensures Valid() && Repr == old(Repr)
      ensures Snapshot() == old(Snapshot())[entry := AverageValue(Pushed(old(Snapshot())[entry].samples, sample))]
    {
      var buffer := BufferOf(entry);
      buffer.Push(sample);
    }

    /** `stat_inc_counter`: add `delta` to a counter entry; no other entry changes. */
    method IncCounter(entry: nat, delta: int)
      requires Valid() && entry < NUMBER_OF_STAT_ENTRIES && Kinds[entry] == SkCounter
      modifies entries
      ensures Valid() && Repr == old(Repr)
      ensures Snapshot() == old(Snapshot())[entry := CounterValue(old(Snapshot())[entry].value + delta)]
    {
      var stat := entries[entry];
      entries[entry] := Stat(stat.description, Counter(stat.metric.value + delta));
    }

    /** `stat_start_timer_at`: (re-)arm a timer entry at `msecs`; no other entry changes. */
    method StartTimerAt(entry: nat, msecs: u32)
      requires Valid() && entry < NUMBER_OF_STAT_ENTRIES && Kinds[entry] == SkTimer
      modifies entries
      ensures Valid() && Repr == old(Repr)
      ensures Snapshot() == old(Snapshot())[entry := TimerValue(msecs)]
    {
      var stat := entries[entry];
      entries[entry] := Stat(stat.description, Timer(msecs));
    }

    /** What the report needs of one entry: its description, a valid buffer behind an average, and its value. */
    lemma EntryFacts(i: nat)
      requires Valid() && i < NUMBER_OF_STAT_ENTRIES
      ensures entries[i].description == Descriptions[i]
      ensures entries[i].metric.Average? ==> entries[i].metric.samples.Valid()
      ensures Snapshot()[i] == ValueOf(entries[i].metric)
    {
      if entries[i].metric.Average? {
        var k := AverageSlot(i);
        assert entries[i].metric.samples == buffers[k];
      }
    }

    /**
     * `stat_print_per_n_ticks`: when the tick counter is a multiple of `n`,
     * the report: the heading, then one line per entry in table order.
     */
    method PrintPerNTicks(n: int, nowMsecs: u32) returns (report: Option<seq<Line>>)
      requires Valid() && n != 0
      ensures report.Some? <==> Snapshot()[TICKS_COUNT].value % n == 0
      ensures report.Some? ==>
        && |report.value| == NUMBER_OF_STAT_ENTRIES + 1
        && report.value[0] == Heading
        && forall i :: 0 <= i < NUMBER_OF_STAT_ENTRIES ==>
             report.value[i + 1] == Row(Descriptions[i], Show(Snapshot()[i], nowMsecs))
    {
      if entries[TICKS_COUNT].metric.value % n == 0 {
        ghost var values := Snapshot();
        var lines := [Heading];
        for i := 0 to entries.Length
          invariant lines == [Heading] + ReportRows(values, nowMsecs, i)
        {
          EntryFacts(i);
          var shown := Display(entries[i], nowMsecs);
          lines := lines + [Row(entries[i].description, shown)];
        }
        ReportRowsAt(values, nowMsecs, NUMBER_OF_STAT_ENTRIES);
        report := Some(lines);
      } else {
        report := None;
      }
    }
  }

  // ------------------------------------------------------- what a line means

  /** A counter's line reads back as the counter's value. */
  lemma ShowCounterReadsBack(n: int, nowMsecs: u32)
    ensures Show(CounterValue(n), nowMsecs).Chars?
    ensures IntValue(Show(CounterValue(n), nowMsecs).text) == n
  {
    IntToStringRoundTrip(n);
  }

  /**
   * A timer's line reads back as the whole time elapsed since its start,
   * seconds and above, where the elapsed time is taken modulo 2^32 ms.
   */
  lemma ShowTimerReadsBack(startedAt: u32, nowMsecs: u32)
    ensures Show(TimerValue(startedAt), nowMsecs).Chars?
    ensures ParseInterval(Show(TimerValue(startedAt), nowMsecs).text) == Some(ShownParts(WrapSub(nowMsecs, startedAt)))
    ensures Millis(ShownParts(WrapSub(nowMsecs, startedAt))) == WrapSub(nowMsecs, startedAt) / 1000 * 1000
  {
    IntervalTextRoundTrip(WrapSub(nowMsecs, startedAt));
    IntervalTextDenotes(WrapSub(nowMsecs, startedAt));
  }

  /** An average's line shows a value within the range of its samples. */
  lemma ShowAverageBounded(s: seq<real>, lo: real, hi: real, nowMsecs: u32)
    requires |s| > 0
    requires forall i :: 0 <= i < |s| ==> lo <= s[i] <= hi
    ensures Show(AverageValue(s), nowMsecs).Float?
    ensures lo <= Show(AverageValue(s), nowMsecs).value <= hi
  {
    MeanBounds(s, lo, hi);
  }

  // -------------------------------------------------------------- scenarios

  /** Adding 5 and then -2 to a fresh counter makes it show "3". */
  method CounterScenario() returns (shown: Shown)
    ensures shown == Chars("3")
  {
    var table := new Table();
    table.IncCounter(MESSAGES_SENT, 5);
    table.IncCounter(MESSAGES_SENT, -2);
    assert table.Snapshot()[MESSAGES_SENT] == CounterValue(3);
    shown := Display(table.entries[MESSAGES_SENT], 0);
    assert NatToString(3) == "3";
  }

  /** A timer started 1 s before the 32-bit millisecond clock wraps shows "1 sec" half a second after the wrap. */
  method TimerWrapScenario() returns (shown: Shown)
    ensures shown == Chars("1 sec")
  {
    var table := new Table();
    table.StartTimerAt(UPTIME, U32_MODULUS - 1000);
    assert table.Snapshot()[UPTIME] == TimerValue(U32_MODULUS - 1000);
    shown := Display(table.entries[UPTIME], 500);
    assert WrapSub(500, U32_MODULUS - 1000) == 1500;
    IntervalTextExamples();
  }

  lemma MeanOfTwoExample()
    ensures Mean([2.0, 4.0]) == 3.0
  {
    assert [2.0, 4.0][..1] == [2.0];
    assert [2.0][..0] == [];
  }

  /** Pushing 2 and 4 into the fresh tick-time buffer makes it show their mean, 3. */
  method AverageScenario() returns (shown: Shown)
    ensures shown == Float(3.0)
  {
    var table := new Table();
    table.PushSample(TICK_TIMES, 2.0);
    assert table.Snapshot()[TICK_TIMES] == AverageValue([2.0]);
    table.PushSample(TICK_TIMES, 4.0);
    assert table.Snapshot()[TICK_TIMES] == AverageValue([2.0, 4.0]);
    shown := Display(table.entries[TICK_TIMES], 0);
    MeanOfTwoExample();
  }
}
