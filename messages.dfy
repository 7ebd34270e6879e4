/**
 * Sending a binary message to a player and accounting for it in the
 * per-tick traffic counters.
 */
module Messages {

  import opened Ints
  import opened Connections

  type byte = bv8

  /** `sizeof(message->byte_length)`: the length field that begins every message. */
  const LENGTH_FIELD_SIZE: nat := 4

  /**
   * A message: its total size in bytes, length field included, and the
   * bytes that follow the length field.
   */
  datatype Message = Message(byteLength: u32, bytes: seq<byte>)

  /** The bytes handed to the framing layer: everything after the length field. */
  function Payload(m: Message): (p: seq<byte>)
    requires m.byteLength >= LENGTH_FIELD_SIZE && |m.bytes| >= m.byteLength - LENGTH_FIELD_SIZE
    ensures |p| == m.byteLength - LENGTH_FIELD_SIZE
    ensures forall k :: 0 <= k < |p| ==> p[k] == m.bytes[k]
  {
    m.bytes[..m.byteLength - LENGTH_FIELD_SIZE]
  }

  /**
   * How a send ends. `Sent` returns the message's `byte_length`; the other
   * two are the paths on which the server prints an error and exits with
   * status 69.
   */
  datatype SendOutcome =
    | Sent(byteLength: u32)
    | UnknownPlayer(playerId: u32)
    | FramingFailed(playerId: u32, err: int)

  /**
   * `send_message`: look the player up, hand the payload to the framing
   * call `cws_send_message` (here `framing`, negative on failure), and
   * return the message's full byte length.
   */
  method SendMessage(registry: Registry, playerId: u32, message: Message, framing: (Cws, seq<byte>) -> int)
    returns (outcome: SendOutcome)
    requires message.byteLength >= LENGTH_FIELD_SIZE
    requires |message.bytes| >= message.byteLength - LENGTH_FIELD_SIZE
    ensures playerId !in registry.entries <==> outcome == UnknownPlayer(playerId)
    ensures playerId in registry.entries ==>
      var err := framing(registry.entries[playerId], Payload(message));
      && (err < 0 <==> outcome == FramingFailed(playerId, err))
      && (err >= 0 <==> outcome == Sent(message.byteLength))
  {
    var cws := registry.GetRef(playerId);
    if cws.None? {
      return UnknownPlayer(playerId);
    }
    var err := framing(cws.value, message.bytes[..message.byteLength - LENGTH_FIELD_SIZE]);
    if err < 0 {
      return FramingFailed(playerId, err);
    }
    outcome := Sent(message.byteLength);
  }

  /** The process-wide per-tick traffic accumulators. */
  class TickCounters {
    var messagesReceived: int
    var bytesReceived: int
    var messagesSent: int
    var bytesSent: int

    constructor ()
      ensures messagesReceived == 0 && bytesReceived == 0 && messagesSent == 0 && bytesSent == 0
    {
      messagesReceived, bytesReceived, messagesSent, bytesSent := 0, 0, 0, 0;
    }
  }

  /**
   * `send_message_and_update_stats`: send, then count the message and its
   * full byte length into the send accumulators. A fatal outcome counts
   * nothing.
   */
  method SendMessageAndUpdateStats(registry: Registry, counters: TickCounters, playerId: u32, message: Message,
                                   framing: (Cws, seq<byte>) -> int)
    returns (outcome: SendOutcome)
    requires message.byteLength >= LENGTH_FIELD_SIZE
    requires |message.bytes| >= message.byteLength - LENGTH_FIELD_SIZE
    modifies counters
    ensures playerId !in registry.entries <==> outcome == UnknownPlayer(playerId)
    ensures playerId in registry.entries ==>
      var err := framing(registry.entries[playerId], Payload(message));
      && (err < 0 <==> outcome == FramingFailed(playerId, err))
      && (err >= 0 <==> outcome == Sent(message.byteLength))
    ensures outcome.Sent? ==>
      counters.bytesSent == old(counters.bytesSent) + message.byteLength &&
      counters.messagesSent == old(counters.messagesSent) + 1
    ensures !outcome.Sent? ==>
      counters.bytesSent == old(counters.bytesSent) && counters.messagesSent == old(counters.messagesSent)
    ensures counters.messagesReceived == old(counters.messagesReceived)
    ensures counters.bytesReceived == old(counters.bytesReceived)
  {
    outcome := SendMessage(registry, playerId, message, framing);
    if outcome.Sent? {
      var sent := outcome.byteLength;
      if sent > 0 {
        counters.bytesSent := counters.bytesSent + sent;
        counters.messagesSent := counters.messagesSent + 1;
      }
    }
  }

  /**
   * Sending to an unregistered player is fatal, a framing error is fatal,
   * and a successful send of a 10-byte message passes the 6 bytes after the
   * length field on and counts 10 bytes and one message.
   */
  method SendScenario()
    returns (unknown: SendOutcome, failed: SendOutcome, sent: SendOutcome, bytesSent: int, messagesSent: int)
    ensures unknown == UnknownPlayer(8)
    ensures failed == FramingFailed(7, -1)
    ensures sent == Sent(10)
    ensures bytesSent == 10 && messagesSent == 1
  {
    var registry := new Registry();
    var counters := new TickCounters();
    registry.Set(7, Cws(3));
    var message := Message(10, [1, 2, 3, 4, 5, 6]);
    unknown := SendMessageAndUpdateStats(registry, counters, 8, message, (c: Cws, p: seq<byte>) => 0);
    failed := SendMessageAndUpdateStats(registry, counters, 7, message, (c: Cws, p: seq<byte>) => -1);
    sent := SendMessageAndUpdateStats(registry, counters, 7, message,
      (c: Cws, p: seq<byte>) => if |p| == 6 then 0 else -1);
    bytesSent, messagesSent := counters.bytesSent, counters.messagesSent;
  }
}
