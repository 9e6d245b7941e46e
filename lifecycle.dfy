/** `scheduling create`: argument validation and the create action, which
    posts a placeholder message, stores the event referencing it, and then
    edits the message into the announcement. */
module Lifecycle {
  import opened Wrappers
  import opened Store
  import opened Errors
  import opened Timestamps
  import opened Persistence

  /** The raw arguments of `scheduling create`. */
  datatype CreateArgs = CreateArgs(
    id: string,
    name: string,
    description: string,
    startTime: string,
    endTime: string,
    slotLengthMinutes: int)

  /** The validated time window: instants in epoch seconds, slot length in seconds. */
  datatype Window = Window(start: int, end: int, slotLength: int)

  const MinSlotMinutes: int := 5
  const MaxSlotMinutes: int := 300

  /** The argument validators, in declaration order: `start` and `end` must
      parse with `tryParseInstant`, and `slotlength` must lie in 5..300 minutes.
      The order of `start` and `end` is not checked. */
  function ValidateArgs(iso: string -> Option<int>, args: CreateArgs): (r: Result<Window, Error>)
    ensures r.Ok? <==>
      TryParseInstant(iso, args.startTime).Some? && TryParseInstant(iso, args.endTime).Some? &&
      MinSlotMinutes <= args.slotLengthMinutes <= MaxSlotMinutes
    ensures r.Ok? ==>
      Some(r.value.start) == TryParseInstant(iso, args.startTime) &&
      Some(r.value.end) == TryParseInstant(iso, args.endTime) &&
      r.value.slotLength == 60 * args.slotLengthMinutes &&
      300 <= r.value.slotLength <= 18000
    ensures r.Err? && TryParseInstant(iso, args.startTime).None? ==>
      r.error == ParseFailed(args.startTime)
    ensures (r.Err? && TryParseInstant(iso, args.startTime).Some? &&
             TryParseInstant(iso, args.endTime).None?) ==>
      r.error == ParseFailed(args.endTime)
    ensures (r.Err? && TryParseInstant(iso, args.startTime).Some? &&
             TryParseInstant(iso, args.endTime).Some?) ==>
      r.error == SlotLengthRejected(args.slotLengthMinutes)
  {
    match ParseInstant(iso, args.startTime)
    case Err(e) => Err(e)
    case Ok(start) =>
      match ParseInstant(iso, args.endTime)
      case Err(e) => Err(e)
      case Ok(end) =>
        if MinSlotMinutes <= args.slotLengthMinutes <= MaxSlotMinutes then
          Ok(Window(start, end, args.slotLengthMinutes * 60))
        else
          Err(SlotLengthRejected(args.slotLengthMinutes))
  }

  /** The create action. `placeholder` is the id the transport gives the
      placeholder message. An id already stored for the guild is rejected
      before any message or store; otherwise the message is posted, the event
      (with no signups) is stored under its id, and only then is the message
      edited into the announcement. */
  method CreateEvent(storage: Storage, guild: Snowflake, iso: string -> Option<int>,
                     args: CreateArgs, placeholder: Snowflake)
    returns (r: Result<EventData, Error>)
    requires storage.Valid()
    modifies storage
    ensures storage.Valid()
    ensures r.Err? <==> ValidateArgs(iso, args).Err? || args.id in old(storage.Load(guild)).events
    ensures r.Err? ==> storage.stored == old(storage.stored) && storage.effects == old(storage.effects)
    ensures r.Err? && ValidateArgs(iso, args).Err? ==> r.error == ValidateArgs(iso, args).error
    ensures r.Err? && ValidateArgs(iso, args).Ok? ==> r.error == EventExists(args.id)
    ensures r.Ok? ==>
      var w := ValidateArgs(iso, args).value;
      r.value == EventData(placeholder, args.id, args.name, args.description,
                           w.start, w.end, w.slotLength, [])
    ensures r.Ok? ==>
      storage.stored == old(storage.stored)[guild := Update(old(storage.Load(guild)), args.id, r.value)]
    ensures r.Ok? ==>
      storage.effects == old(storage.effects) +
        [PlaceholderPosted(placeholder), Saved(guild, storage.Load(guild)),
         AnnouncementEdited(placeholder, r.value)]
  {
    var window;
    match ValidateArgs(iso, args) {
      case Err(e) => return Err(e);
      case Ok(w) => window := w;
    }
    var current := storage.Load(guild);
    if args.id in current.events {
      return Err(EventExists(args.id));
    }
    var event := EventData(placeholder, args.id, args.name, args.description,
                           window.start, window.end, window.slotLength, []);
    Publish(storage, guild, event);
    r := Ok(event);
  }

  /** The effects of a create that passed its checks: post the placeholder
      (whose id `event` already carries), store `event` under its id in the
      freshly loaded store, then edit the placeholder into the announcement. */
  method Publish(storage: Storage, guild: Snowflake, event: EventData)
    requires storage.Valid()
    modifies storage
    ensures storage.Valid()
    ensures storage.stored == old(storage.stored)[guild := Update(old(storage.Load(guild)), event.id, event)]
    ensures storage.effects == old(storage.effects) +
      [PlaceholderPosted(event.messageId), Saved(guild, storage.Load(guild)),
       AnnouncementEdited(event.messageId, event)]
  {
    storage.Post(event.messageId);
    var current := storage.Load(guild);
    assert current == old(storage.Load(guild));
    var next := Update(current, event.id, event);
    assert WellFormed(next) by { assert WellFormed(current); }
    storage.Save(guild, next);
    assert storage.stored == old(storage.stored)[guild := next];
    storage.Announce(event.messageId, event);
    assert storage.Load(guild) == next;
    assert storage.effects ==
      old(storage.effects) + [PlaceholderPosted(event.messageId)] + [Saved(guild, next)] +
      [AnnouncementEdited(event.messageId, event)];
  }

  /** After a successful create the new event is the last line of
      `scheduling list`, and it has no signups. */
  lemma CreatedEventListed(d: SchedulingData, iso: string -> Option<int>, args: CreateArgs,
                           placeholder: Snowflake)
    requires WellFormed(d) && args.id !in d.events && ValidateArgs(iso, args).Ok?
    ensures var w := ValidateArgs(iso, args).value;
      var e := EventData(placeholder, args.id, args.name, args.description,
                         w.start, w.end, w.slotLength, []);
      ListEvents(Update(d, args.id, e)) == ListEvents(d) + [Listing(args.id, args.name, w.start)] &&
      Update(d, args.id, e).events[args.id].signups == []
  {
    var w := ValidateArgs(iso, args).value;
    var e := EventData(placeholder, args.id, args.name, args.description,
                       w.start, w.end, w.slotLength, []);
    NewEventListedLast(d, args.id, e);
  }
}
