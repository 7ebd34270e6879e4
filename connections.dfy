/**
 * The connection registry: the process-wide hash map from a player's id to
 * that player's WebSocket connection.
 */
module Connections {

  import opened Wrappers
  import opened Ints

  /**
   * A player's WebSocket connection (`Cws`), standing for the framing
   * library's state over the socket with descriptor `fd`.
   */
  datatype Cws = Cws(fd: int)

  /** `connections`: the stb_ds hash map, seen as the map it implements. */
  class Registry {
    var entries: map<u32, Cws>

    /** The registry as the program starts: `connections == NULL`, no player. */
    constructor ()
      ensures entries == map[]
    {
      entries := map[];
    }

    /** `connections_set`: insert or overwrite (`hmput`); every other id keeps its connection. */
    method Set(playerId: u32, cws: Cws)
      modifies this
      ensures entries == old(entries)[playerId := cws]
    {
      entries := entries[playerId := cws];
    }

    /** `connections_get_ref`: the connection of a registered id; `NULL` (None) for an unknown one. */
    method GetRef(playerId: u32) returns (r: Option<Cws>)
      ensures r.Some? <==> playerId in entries
      ensures r.Some? ==> r.value == entries[playerId]
    {
      if playerId in entries {
        r := Some(entries[playerId]);
      } else {
        r := None;
      }
    }

    /** `connections_remove`: delete the id if present (`hmdel`), otherwise change nothing. */
    method Remove(playerId: u32)
      modifies this
      ensures entries == old(entries) - {playerId}
      ensures playerId !in old(entries) ==> entries == old(entries)
    {
      entries := entries - {playerId};
    }
  }

  /** For every registry: a lookup right after a set finds the value just set, whatever was there before, and another id's lookup is as before. */
  method SetThenLookup(registry: Registry, playerId: u32, cws: Cws, otherId: u32)
    returns (found: Option<Cws>, otherBefore: Option<Cws>, otherAfter: Option<Cws>)
    requires otherId != playerId
    modifies registry
    ensures found == Some(cws)
    ensures otherAfter == otherBefore
  {
    otherBefore := registry.GetRef(otherId);
    registry.Set(playerId, cws);
    found := registry.GetRef(playerId);
    otherAfter := registry.GetRef(otherId);
  }

  /** For every registry: a lookup right after a remove finds nothing, and another id's lookup is as before. */
  method RemoveThenLookup(registry: Registry, playerId: u32, otherId: u32)
    returns (found: Option<Cws>, otherBefore: Option<Cws>, otherAfter: Option<Cws>)
    requires otherId != playerId
    modifies registry
    ensures found == None
    ensures otherAfter == otherBefore
  {
    otherBefore := registry.GetRef(otherId);
    registry.Remove(playerId);
    found := registry.GetRef(playerId);
    otherAfter := registry.GetRef(otherId);
  }

  /**
   * Setting an id twice keeps the last value, removing it makes lookups
   * fail, removing it again changes nothing, and another id is unaffected
   * throughout.
   */
  method RegistryScenario() returns (last: Option<Cws>, removed: Option<Cws>, other: Option<Cws>, idempotent: bool)
    ensures last == Some(Cws(4))
    ensures removed == None
    ensures other == Some(Cws(5))
    ensures idempotent
  {
    var registry := new Registry();
    registry.Set(7, Cws(3));
    registry.Set(8, Cws(5));
    registry.Set(7, Cws(4));
    last := registry.GetRef(7);
    registry.Remove(7);
    removed := registry.GetRef(7);
    var before := registry.entries;
    registry.Remove(7);
    idempotent := registry.entries == before;
    other := registry.GetRef(8);
  }
}
