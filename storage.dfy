/** The `StorageUnit` behind `guild.config()`: one `SchedulingData` per guild,
    read with `get()` and replaced whole with `save(...)`, plus the trace of
    the external effects (stores and announcement messages) in call order. */
module Persistence {
  import opened Store

  /** An externally visible effect, recorded in the order it happens. */
  datatype Effect =
    | PlaceholderPosted(message: Snowflake)
    | Saved(guild: Snowflake, data: SchedulingData)
    | AnnouncementEdited(message: Snowflake, event: EventData)

  class Storage {
    /** What `save` last wrote for each guild; absent guilds were never saved. */
    var stored: map<Snowflake, SchedulingData>
    /** Every store and message effect so far. */
    var effects: seq<Effect>

    /** Every stored value lists each of its event keys exactly once. */
    ghost predicate Valid()
      reads this`stored
    {
      forall g :: g in stored ==> WellFormed(stored[g])
    }

    constructor ()
      ensures Valid() && stored == map[] && effects == []
    {
      stored := map[];
      effects := [];
    }

    /** `config.get() ?: SchedulingData()`. */
    function Load(guild: Snowflake): (d: SchedulingData)
      reads this`stored
      ensures guild !in stored ==> d == Empty
      ensures guild in stored ==> d == stored[guild]
    {
      if guild in stored then stored[guild] else Empty
    }

    /** `config.save(data)`: replaces the guild's value; a later `get` returns it. */
    method Save(guild: Snowflake, data: SchedulingData)
      requires Valid() && WellFormed(data)
      modifies this
      ensures Valid()
      ensures stored == old(stored)[guild := data]
      ensures effects == old(effects) + [Saved(guild, data)]
      ensures Load(guild) == data
      ensures forall g :: g != guild ==> Load(g) == old(Load(g))
    {
      stored := stored[guild := data];
      effects := effects + [Saved(guild, data)];
    }

    /** Posting a message through the transport; `message` is the id it returns. */
    method Post(message: Snowflake)
      modifies this`effects
      ensures effects == old(effects) + [PlaceholderPosted(message)]
    {
      effects := effects + [PlaceholderPosted(message)];
    }

    /** Editing a posted message into the announcement of `event`. */
    method Announce(message: Snowflake, event: EventData)
      modifies this`effects
      ensures effects == old(effects) + [AnnouncementEdited(message, event)]
    {
      effects := effects + [AnnouncementEdited(message, event)];
    }
  }
}
