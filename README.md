# Server bookkeeping: metrics engine and connection registry

This project models the bookkeeping core of a real-time game server written in C (`src/server.c`) and proves properties of it in Dafny.

- **Metrics engine.** A fixed table of sixteen tagged metrics: counters, timers and 30-sample rolling averages.
  - Kind-checked operations each update exactly one entry.
  - A periodic report prints every metric when the tick counter is a multiple of `n`.
- **Duration formatter.** It turns a millisecond count into text such as `"1 day 1 hour"` or `"0 secs"`.
- **Connection registry.** A map from a player's 32-bit id to its WebSocket connection.
- **Send path.** It hands a message's payload to the framing layer and adds the message to the per-tick traffic counters.

Files, one module each:

| file | module | models |
|---|---|---|
| `wrappers.dfy` | `Wrappers` | `Option` |
| `ints.dfy` | `Ints` | `uint32_t` and its wrapping subtraction |
| `text.dfy` | `Text` | `"%d"` formatting and space-joined words, each with its inverse |
| `ring_buffer.dfy` | `RingBuffer` | `Stat_Samples`, `rb_at`, `rb_push`, `stat_samples_average` |
| `time_interval.dfy` | `TimeInterval` | `plural_number`, `display_time_interval` |
| `stats.dfy` | `Stats` | `Stat`, `Stat_Kind`, the `stats` table and its operations, `stat_display` |
| `connections.dfy` | `Connections` | `connections_set`, `connections_get_ref`, `connections_remove` |
| `messages.dfy` | `Messages` | `send_message`, `send_message_and_update_stats` |
| `socket.dfy` | `Socket` | the result classification inside the socket adapter's loop |

Code that changes state in place is modelled imperatively:
- The ring buffer is a class over a 30-slot `array<real>`, with `begin` and `count`. A ghost sequence holds its logical contents.
- The metric table is a class over a 16-entry `array<Stat>`. The abstract view `Snapshot()` is the list of entry values.
- The registry is a class holding a `map<u32, Cws>`.
- The per-tick accumulators are a class with four integer fields.
- `stat_samples_average` and `display_time_interval` are methods with the source's loops.
  - `display_time_interval` fills a four-slot array through a running count, as the source does.
  - Both are proved equal to pure specification functions (`Mean`, `IntervalText`). The properties are then proved about those functions.

The formatter's output is tied to its meaning by a round trip. The model defines a reader (`ParseInterval`) that reads the text back into its parts. The proof shows that:
- the text reads back as exactly the parts shown;
- those parts add up to the interval truncated to whole seconds.

A counter's `"%d"` text likewise reads back as the counter's value (`IntValue`).

A successful send counts `byte_length`, the full message size including the 4-byte length field, although the framing call receives only the `byte_length - 4` bytes after it.

## Model

| member | source | states |
|---|---|---|
| `RingBuffer.Samples.constructor` | src/server.c:146-150 | a zero-initialised buffer: valid, `begin == 0`, no samples |
| `RingBuffer.Samples.At` | src/server.c:156-162 | for `i < count` (the asserted bound) the slot `(begin + i) % 30` holds the i-th oldest logical sample |
| `RingBuffer.Samples.Push` | src/server.c:164-172 | keeps `count <= 30` and `begin < 30`; below capacity `count` grows by one and `begin` stays; when full `begin` advances by one mod 30 and `count` stays 30; the contents become the old contents plus the sample, oldest dropped when full |
| `RingBuffer.LayoutGrow` | src/server.c:164-172 | below capacity, writing the slot after the newest sample lays out the old samples plus the new one from the same start |
| `RingBuffer.LayoutFull` | src/server.c:164-172 | at capacity, overwriting the oldest slot and moving the start one slot on lays out the old samples minus the oldest, plus the new one |
| `RingBuffer.PushedIsWindow` | src/server.c:164-172 | pushing keeps the buffer equal to the last (at most 30) samples of the whole push history |
| `RingBuffer.SumPushed` | src/server.c:164-172 | a push adds the new sample to the buffer's sum and, when full, subtracts the evicted oldest one |
| `RingBuffer.Samples.Average` | src/server.c:291-299 | returns 0 for an empty buffer, otherwise the sum of the `count` logical samples divided by `count` |
| `RingBuffer.MeanBounds` | src/server.c:291-299 | the average of samples that all lie in `[lo, hi]` lies in `[lo, hi]` |
| `Text.NatToStringRoundTrip` | src/server.c:312 | `"%d"` of a non-negative number is a non-empty run of digits that reads back as the number, with a leading zero only for 0 |
| `Text.IntToStringRoundTrip` | src/server.c:334 | `"%d"` of any `int` reads back as that int; a negative one is a minus sign followed by digits |
| `Text.SplitJoinSpaced` | src/server.c:322-327 | joining words that contain no space with single spaces, then cutting at spaces, gives back the words |
| `TimeInterval.PluralNumber` | src/server.c:301-304 | the word is one of the two given; for two different words it is the singular one exactly when the number is 1 |
| `TimeInterval.AppendPart` | src/server.c:311-318 | `if (n > 0) result[result_count++] = "<n> <unit>"`: a non-zero component writes its part text into slot `count` and adds one to the count; a zero one leaves the count and the whole array as they were; no other slot changes |
| `TimeInterval.DisplayTimeInterval` | src/server.c:306-329 | the text built through the parts array and the string builder is `IntervalText(diff_msecs)` |
| `TimeInterval.JoinParts` | src/server.c:322-326 | the string builder's text is the first `result_count` part texts joined with one space between neighbours |
| `TimeInterval.ComponentsAreDivisions` | src/server.c:310-317 | days = ms/86 400 000, hours = ms/3 600 000 % 24, mins = ms/60 000 % 60, secs = ms/1000 % 60, each below its unit's range |
| `TimeInterval.ComponentsRecombine` | src/server.c:310-317 | the four components add back up to the whole seconds of `ms`, in milliseconds |
| `TimeInterval.NonZeroPartsShape` | src/server.c:301-304 | every shown part has a positive count, its unit is the singular word exactly when the count is 1, and units run strictly from days to secs |
| `TimeInterval.IntervalTextRoundTrip` | src/server.c:306-329 | the text reads back as exactly the shown parts (the non-zero ones, or `0 secs`), joined by single spaces |
| `TimeInterval.IntervalTextDenotes` | src/server.c:306-329 | the parts the text names add up to `ms` truncated to whole seconds |
| `TimeInterval.ZeroSecsIffSubSecond` | src/server.c:320 | the text is exactly `"0 secs"` if and only if `ms < 1000` |
| `TimeInterval.IntervalTextExamples` | src/server.c:306-329 | 0 gives `"0 secs"`, 1500 gives `"1 sec"`, 61000 gives `"1 min 1 sec"`, 90000000 gives `"1 day 1 hour"` |
| `Ints.WrapSub` | src/server.c:336 | `now - started_at` on `uint32_t`: the difference modulo 2^32, equal to the plain difference when no wrap occurs |
| `Stats.Display` | src/server.c:331-339 | a counter shows its value in `"%d"`, an average shows its mean, a timer shows the formatted time since its start using wrap-around subtraction |
| `Stats.ShowCounterReadsBack` | src/server.c:334 | a counter's text reads back as the counter's value |
| `Stats.ShowAverageBounded` | src/server.c:335 | an average's shown value lies within the range of its samples |
| `Stats.ShowTimerReadsBack` | src/server.c:336 | a timer's text reads back as the parts of the wrapped elapsed time, which add up to that time in whole seconds |
| `Stats.Table.constructor` | src/server.c:223-289 | the sixteen entries with their descriptions and kinds in `Stat_Entry` order; every value starts at 0; every buffer starts empty and distinct from the others |
| `Stats.Table.PushSample` | src/server.c:341-347 | requires `entry < 16` and the average kind; the entry's samples become the pushed contents; every other entry is unchanged |
| `Stats.Table.IncCounter` | src/server.c:349-355 | requires `entry < 16` and the counter kind; the entry gains `delta`; every other entry is unchanged |
| `Stats.Table.StartTimerAt` | src/server.c:357-363 | requires `entry < 16` and the timer kind; the entry's start becomes `msecs`, re-arming it on a repeat call; every other entry is unchanged |
| `Stats.Table.PrintPerNTicks` | src/server.c:365-374 | a report exists if and only if the tick counter's value is a multiple of `n` (tick 0 included). It is the heading, then 16 lines, one per entry in table order, each with the entry's description and display |
| `Stats.CounterScenario` | src/server.c:349-355 | +5 then -2 on a fresh counter displays `"3"` |
| `Stats.TimerWrapScenario` | src/server.c:357-363 | a timer started at 2^32 - 1000 ms displays `"1 sec"` at time 500 ms, across the clock's wrap |
| `Stats.AverageScenario` | src/server.c:341-347 | pushing 2 and 4 into the fresh tick-time buffer displays their mean, 3 |
| `Connections.Registry.constructor` | src/server.c:33 | the registry starts empty |
| `Connections.Registry.Set` | src/server.c:49-52 | the id maps to the new connection, replacing any previous one; every other id keeps its own |
| `Connections.Registry.GetRef` | src/server.c:42-47 | a connection is found if and only if the id is registered, and it is the registered one |
| `Connections.Registry.Remove` | src/server.c:36-40 | the id is no longer registered, every other id keeps its connection, and removing an absent id changes nothing |
| `Connections.SetThenLookup` | src/server.c:42-52 | for every registry, a lookup after `connections_set(id, v)` finds `v`, and another id's lookup is as before |
| `Connections.RemoveThenLookup` | src/server.c:36-47 | for every registry, a lookup after `connections_remove(id)` finds nothing, and another id's lookup is as before |
| `Connections.RegistryScenario` | src/server.c:36-52 | the last value wins, remove makes a lookup fail, a second remove changes nothing, another id is unaffected |
| `Messages.Payload` | src/server.c:64 | the framing call gets the `byte_length - 4` bytes after the length field |
| `Messages.SendMessage` | src/server.c:56-70 | an unknown id is the fatal unknown-player outcome. Otherwise a negative framing result on the payload is the fatal framing outcome. Otherwise the full `byte_length` is returned |
| `Messages.TickCounters.constructor` | src/server.c:376-379 | the four per-tick accumulators start at 0 |
| `Messages.SendMessageAndUpdateStats` | src/server.c:72-79 | the outcome is that of `send_message`. A successful send adds the full `byte_length` to the bytes-sent accumulator and 1 to the messages-sent one. A fatal outcome counts nothing, and the received accumulators never change |
| `Messages.SendScenario` | src/server.c:56-79 | id 8, never registered, is fatal; a framing error is fatal; a 10-byte message to a registered id passes its 6 payload bytes on and counts 10 bytes and one message |
| `Socket.Classify` | src/server.c:86-90 | a positive result returns the count; a negative one is an error unless errno is EWOULDBLOCK, which yields and retries; zero means the connection closed |

## Left out

- Socket adapter I/O (`cws_socket_read/peek/write/shutdown/close`, `cws_socket_from_fd`): these are system calls and coroutine yields. The retry loop is not modelled; only the decision on one call's result is (`Socket.Classify`).
- `cws_send_message` and `cws_error_message` belong to the framing library, which is not part of this model. The framing call is a function parameter whose negative result means failure. Its effect on the socket is not modelled.
- `Messages.SendMessage`: the `framing` parameter stands for `cws_send_message` sending one binary frame (`CWS_MESSAGE_BIN`). The frame kind is fixed, so it is not a parameter, and the frame format is not modelled.
- `exit(69)` and the `fprintf` messages: the two fatal paths are `SendOutcome` values (`UnknownPlayer`, `FramingFailed`) rather than process termination.
- Floating point: samples and averages are exact reals. `float` rounding and the `"%f"` rendering are not modelled; an average's line carries its mean as a number (`Shown.Float`).
- Arena allocation (`arena_sprintf`, `arena_sb_*`), `printf` and `fflush`: strings and a returned sequence of report lines stand for them.
- `Stats.Table.PrintPerNTicks`: a report line is the structured value `Row(description, shown)` and the heading is the constructor `Heading`. The printed layout is not rendered: the `"Stats:"` text, the two-space indent, the single space between description and value, and the newlines.
- The stb_ds hash map internals (`hmput`, `hmgeti`, `hmdel`) are a Dafny `map`. `connections_get_ref` returns the connection by value, so aliasing through the returned pointer is not modelled.
- `Stats.Table.IncCounter`: the counter is an unbounded integer, so the overflow of the C `int` counter (undefined behaviour in C) is not modelled.
- `Messages.SendMessageAndUpdateStats`: the send is modelled as one atomic step, but the framing call's socket write can suspend the sending task (`coroutine_yield` when the write would block). While it waits, other tasks may change the registry, the metric table and the per-tick accumulators, and the model does not capture those changes. The counter contract states only this call's own increase over the values at entry. The `Cws` pointer that `connections_get_ref` returned is held across the wait; an `hmput` or `hmdel` by another task can move or free its slot, and that aliasing is not modelled either.
- `Messages.SendMessageAndUpdateStats`: the per-tick accumulators are unbounded integers, so the overflow of the C `int` accumulators is not modelled.
- `Stats.Table.PrintPerNTicks`: for `n == 0` the C code divides by zero. The model requires `n != 0`.
- The `Message` struct is declared in `common.h`, which is not part of this model. The length field is taken to be 4 bytes, and a message must have `byte_length >= 4`.
- The globals `idCounter` and `temp` carry no logic here.
- The per-tick accumulators are folded into the average metrics and reset once per tick. That happens outside this file, so it is not modelled.
- The `sent > 0` guard in `send_message_and_update_stats` is in the model. Since `byte_length >= 4`, it always holds after a successful send.
