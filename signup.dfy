/** The `signup` command: a session over one stored event that lets one user
    pick a slot from a select menu and commit it with a submit button. The
    captured variables of the action (`selectedTimeslot`, the button flag of
    the latest render, the response's content) are the fields of
    `SignupSession`. */
module Signups {
  import opened Wrappers
  import opened Store
  import opened Errors
  import opened Slots
  import opened Persistence

  /** The select action's test: a parsed instant within `[start, end)`. */
  predicate SubmitAllowed(selected: Option<int>, start: int, end: int)
    ensures SubmitAllowed(selected, start, end) ==> selected.Some? && start < end
    ensures selected == Some(end) ==> !SubmitAllowed(selected, start, end)
  {
    selected.Some? && start <= selected.value < end
  }

  /** Every generated slot except one at exactly `end` enables submit; such a
      slot is offered exactly when the span is a multiple of the step. */
  lemma OfferedSlotsEnableSubmit(start: int, end: int, step: int)
    requires step > 0
    ensures forall t :: t in SlotStarts(start, end, step) ==>
      (SubmitAllowed(Some(t), start, end) <==> t != end)
    ensures end in SlotStarts(start, end, step) <==> start <= end && (end - start) % step == 0
  {
    SlotList(start, end, step);
  }

  /** What the ephemeral response shows: the prompt with the timeslot menu and
      the submit button, or the confirmation with every control removed. */
  datatype Screen =
    | Prompt(options: seq<SlotOption>, submitEnabled: bool)
    | Registered(user: Snowflake, slot: int)

  class SignupSession {
    const storage: Storage
    const guild: Snowflake
    /** The `event` argument: the key the signup is committed under. */
    const key: string
    /** The event as loaded when the command started (`scheduledEvent`). */
    const event: EventData
    const user: Snowflake
    /** `Instant.parse`, the ISO 8601 parser the select action uses. */
    const iso: string -> Option<int>

    /** `selectedTimeslot`. */
    var selected: Option<int>
    /** The `buttonEnabled` flag of the latest render. */
    var enabled: bool
    var screen: Screen

    /** The button is enabled exactly when the selection is inside the event. */
    ghost predicate Valid()
      reads this
    {
      event.slotLength > 0 &&
      enabled == SubmitAllowed(selected, event.start, event.end) &&
      (screen.Prompt? ==> screen.submitEnabled == enabled)
    }

    /** The first response: nothing selected and the button disabled. */
    constructor (storage: Storage, guild: Snowflake, key: string, event: EventData,
                 user: Snowflake, iso: string -> Option<int>)
      requires event.slotLength > 0
      ensures Valid()
      ensures this.storage == storage && this.guild == guild && this.key == key
      ensures this.event == event && this.user == user && this.iso == iso
      ensures selected == None && !enabled
      ensures screen == Prompt(Options(event.start, event.end, event.slotLength, None), false)
    {
      this.storage := storage;
      this.guild := guild;
      this.key := key;
      this.event := event;
      this.user := user;
      this.iso := iso;
      selected := None;
      enabled := false;
      new;
      Render(false);
    }

    /** `updateResponse(buttonEnabled)`: rebuilds the whole menu from the slot
      progression, marking the current selection as default. */
    method Render(buttonEnabled: bool)
      requires event.slotLength > 0
      modifies this`enabled, this`screen
      ensures enabled == buttonEnabled
      ensures screen == Prompt(Options(event.start, event.end, event.slotLength, selected), buttonEnabled)
    {
      var options := BuildOptions(event.start, event.end, event.slotLength, selected);
      enabled := buttonEnabled;
      screen := Prompt(options, buttonEnabled);
    }

    /** The select-menu action with the chosen value `raw` (none when nothing
      is chosen). An unparsable value fails and changes nothing. Otherwise the
      selection is stored, whether or not it is inside the event, and the
      response is re-rendered only when the button state flips; `rerendered`
      tells which. */
    method Select(raw: Option<string>) returns (r: Result<bool, Error>)
      requires Valid() && screen.Prompt?
      modifies this`selected, this`enabled, this`screen
      ensures Valid() && screen.Prompt?
      ensures r.Err? <==> raw.Some? && iso(raw.value).None?
      ensures r.Err? ==> r.error == ParseFailed(raw.value)
      ensures r.Err? ==> selected == old(selected) && enabled == old(enabled) && screen == old(screen)
      ensures r.Ok? ==> selected == (if raw.Some? then iso(raw.value) else None)
      ensures r.Ok? ==> (r.value <==> old(enabled) != enabled)
      ensures r.Ok? && !r.value ==> screen == old(screen)
      ensures r.Ok? && r.value ==>
        screen == Prompt(Options(event.start, event.end, event.slotLength, selected), enabled)
    {
      if raw.Some? && iso(raw.value).None? {
        return Err(ParseFailed(raw.value));
      }
      selected := if raw.Some? then iso(raw.value) else None;
      var rerendered := false;
      if SubmitAllowed(selected, event.start, event.end) {
        if !enabled {
          Render(true);
          rerendered := true;
        }
      } else {
        if enabled {
          Render(false);
          rerendered := true;
        }
      }
      r := Ok(rerendered);
    }

    /** The submit action. Without a selection it fails. Otherwise it builds
      `Signup(user, selectedTimeslot, slotLength)`, reloads the guild's store,
      appends the signup to the event through `update(key) { addSignup }` and
      saves the whole store; the response becomes the confirmation. Neither
      the slot nor the user is checked for duplicates. */
    method Submit() returns (r: Result<Signup, Error>)
      requires Valid() && screen.Prompt? && storage.Valid()
      modifies this`screen, storage
      ensures Valid() && storage.Valid()
      ensures r.Ok? <==> selected.Some? && key in old(storage.Load(guild)).events
      ensures selected.None? ==> r == Err(NoTimeslotSelected)
      ensures selected.Some? && r.Err? ==> r.error == UnknownEventKey(key)
      ensures r.Err? ==>
        storage.stored == old(storage.stored) && storage.effects == old(storage.effects) &&
        screen == old(screen)
      ensures r.Ok? ==>
        r.value == Signup(user, selected.value, event.slotLength) &&
        screen == Registered(user, selected.value)
      ensures r.Ok? ==>
        var before := old(storage.Load(guild));
        var after := storage.Load(guild);
        storage.stored == old(storage.stored)[guild := after] &&
        storage.effects == old(storage.effects) + [Saved(guild, after)] &&
        after.order == before.order && after.events.Keys == before.events.Keys &&
        after.events[key] == AddSignup(before.events[key], r.value) &&
        (forall k :: k in before.events && k != key ==> after.events[k] == before.events[k])
    {
      if selected.None? {
        return Err(NoTimeslotSelected);
      }
      var signup := Signup(user, selected.value, event.slotLength);
      var current := storage.Load(guild);
      match UpdateWith(current, key, e => AddSignup(e, signup)) {
        case Err(e) =>
          return Err(e);
        case Ok(next) =>
          storage.Save(guild, next);
          screen := Registered(user, signup.slot);
          r := Ok(signup);
      }
    }
  }

  /** The start of the `signup` action: the event must be stored for the
      guild, and its slot length must be a positive step for the first render. */
  method OpenSignup(storage: Storage, guild: Snowflake, key: string, user: Snowflake,
                    iso: string -> Option<int>)
    returns (r: Result<SignupSession, Error>)
    ensures r.Ok? <==>
      key in storage.Load(guild).events && storage.Load(guild).events[key].slotLength > 0
    ensures key !in storage.Load(guild).events ==> r == Err(EventNotFound(key))
    ensures key in storage.Load(guild).events && storage.Load(guild).events[key].slotLength <= 0 ==>
      r == Err(StepNotPositive(storage.Load(guild).events[key].slotLength))
    ensures r.Ok? ==>
      fresh(r.value) && r.value.Valid() &&
      r.value.storage == storage && r.value.guild == guild && r.value.key == key &&
      r.value.user == user && r.value.iso == iso &&
      r.value.event == storage.Load(guild).events[key] &&
      r.value.selected == None && !r.value.enabled &&
      r.value.screen == Prompt(Options(r.value.event.start, r.value.event.end,
                                       r.value.event.slotLength, None), false)
  {
    var data := storage.Load(guild);
    if key !in data.events {
      return Err(EventNotFound(key));
    }
    var event := data.events[key];
    if event.slotLength <= 0 {
      return Err(StepNotPositive(event.slotLength));
    }
    var session := new SignupSession(storage, guild, key, event, user, iso);
    r := Ok(session);
  }
}
