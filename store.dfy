/** The per-guild event store: `SchedulingData`, `EventData` and `Signup`, and
    the copy-based updates the scheduler performs on them. */
module Store {
  import opened Wrappers
  import opened Errors

  /** A Discord id (an unsigned 64-bit snowflake). */
  type Snowflake = nat

  /** One user's claim on one slot; `slot` in epoch seconds, `duration` in seconds. */
  datatype Signup = Signup(user: Snowflake, slot: int, duration: int)

  /** An event; `start`/`end` in epoch seconds, `slotLength` in seconds. */
  datatype EventData = EventData(
    messageId: Snowflake,
    id: string,
    name: string,
    description: string,
    start: int,
    end: int,
    slotLength: int,
    signups: seq<Signup>)

  /** The events of one guild, keyed by event id. The serialized map is a
      LinkedHashMap, so `order` records its keys in insertion order. */
  datatype SchedulingData = SchedulingData(order: seq<string>, events: map<string, EventData>)

  /** `SchedulingData()`, the value used when the guild has nothing stored. */
  const Empty: SchedulingData := SchedulingData([], map[])

  /** `order` lists every key of `events` exactly once. */
  ghost predicate WellFormed(d: SchedulingData) {
    (forall i, j :: 0 <= i < j < |d.order| ==> d.order[i] != d.order[j]) &&
    (forall k :: k in d.events <==> k in d.order)
  }

  /** `update(key, event)`: `events + (key to event)`. An existing key keeps its
      position; a new key goes last. */
  function Update(d: SchedulingData, key: string, event: EventData): (r: SchedulingData)
    ensures key in r.events && r.events[key] == event
    ensures forall k :: k != key ==> (k in r.events <==> k in d.events)
    ensures forall k :: k != key && k in d.events ==> r.events[k] == d.events[k]
    ensures |d.order| <= |r.order| && r.order[..|d.order|] == d.order
    ensures WellFormed(d) ==> WellFormed(r)
  {
    SchedulingData(
      if key in d.order then d.order else d.order + [key],
      d.events[key := event])
  }

  /** `update(key, transform)`: applies `transform` to the event stored under
      `key` and stores the result there; fails when `key` is absent. */
  function UpdateWith(d: SchedulingData, key: string, transform: EventData -> EventData)
    : (r: Result<SchedulingData, Error>)
    ensures r.Err? <==> key !in d.events
    ensures r.Err? ==> r.error == UnknownEventKey(key)
    ensures r.Ok? ==> key in r.value.events && r.value.events[key] == transform(d.events[key])
    ensures r.Ok? ==> r.value.events.Keys == d.events.Keys
    ensures r.Ok? ==> forall k :: k in d.events && k != key ==> r.value.events[k] == d.events[k]
    ensures r.Ok? && WellFormed(d) ==> r.value.order == d.order
  {
    if key in d.events then Ok(Update(d, key, transform(d.events[key])))
    else Err(UnknownEventKey(key))
  }

  /** `EventData.addSignup`: the same event with `s` appended to its signups. */
  function AddSignup(e: EventData, s: Signup): (r: EventData)
    ensures |r.signups| == |e.signups| + 1
    ensures r.signups[..|e.signups|] == e.signups && r.signups[|e.signups|] == s
    ensures r.messageId == e.messageId && r.id == e.id && r.name == e.name
    ensures r.description == e.description && r.start == e.start && r.end == e.end
    ensures r.slotLength == e.slotLength
  {
    e.(signups := e.signups + [s])
  }

  /** Committing a signup through `update(key) { it.addSignup(s) }`: the target
      event gains exactly `s` at the end and nothing else in the store changes. */
  lemma CommitSignup(d: SchedulingData, key: string, s: Signup)
    requires key in d.events
    ensures var r := UpdateWith(d, key, e => AddSignup(e, s));
      r.Ok? &&
      r.value.events[key].signups == d.events[key].signups + [s] &&
      r.value.events[key].(signups := []) == d.events[key].(signups := []) &&
      (forall k :: k != key ==> (k in r.value.events <==> k in d.events)) &&
      (forall k :: k != key && k in d.events ==> r.value.events[k] == d.events[k])
  {
    var r := UpdateWith(d, key, e => AddSignup(e, s));
    var e := d.events[key];
    assert r.value.events[key] == AddSignup(e, s);
    assert AddSignup(e, s).signups == e.signups + [s];
  }

  /** Two commits in sequence (by any users, for any slots: duplicates are not
      rejected) leave both signups on the event, in commit order. */
  lemma {:induction false} SequentialCommits(d: SchedulingData, key: string, s1: Signup, s2: Signup)
    requires key in d.events
    ensures var r1 := UpdateWith(d, key, e => AddSignup(e, s1));
      r1.Ok? &&
      var r2 := UpdateWith(r1.value, key, e => AddSignup(e, s2));
      r2.Ok? && r2.value.events[key].signups == d.events[key].signups + [s1, s2]
  {
    CommitSignup(d, key, s1);
    var d1 := UpdateWith(d, key, e => AddSignup(e, s1)).value;
    CommitSignup(d1, key, s2);
    assert d.events[key].signups + [s1] + [s2] == d.events[key].signups + [s1, s2];
  }

  /** One line of `scheduling list`: key, event name and start instant. */
  datatype Listing = Listing(key: string, name: string, start: int)

  /** `scheduling list`: one line per key, in the store's key order. */
  function ListEvents(d: SchedulingData): (r: seq<Listing>)
    requires WellFormed(d)
    ensures |r| == |d.order|
    ensures forall i :: 0 <= i < |r| ==>
      r[i].key == d.order[i] && r[i].key in d.events &&
      r[i].name == d.events[r[i].key].name && r[i].start == d.events[r[i].key].start
  {
    seq(|d.order|, i requires 0 <= i < |d.order| =>
      Listing(d.order[i], d.events[d.order[i]].name, d.events[d.order[i]].start))
  }

  /** The listing shows every stored event exactly once. */
  lemma ListEventsComplete(d: SchedulingData)
    requires WellFormed(d)
    ensures var r := ListEvents(d);
      |r| == |d.events| &&
      (forall k :: k in d.events ==> exists i :: 0 <= i < |r| && r[i].key == k) &&
      (forall i, j :: 0 <= i < j < |r| ==> r[i].key != r[j].key)
  {
    DistinctCardinality(d.order);
    assert d.events.Keys == set k | k in d.order;
  }

  /** Storing a new key lists its event after all earlier ones; the earlier
      entries are untouched. */
  lemma NewEventListedLast(d: SchedulingData, key: string, event: EventData)
    requires WellFormed(d) && key !in d.events
    ensures ListEvents(Update(d, key, event)) == ListEvents(d) + [Listing(key, event.name, event.start)]
  {
    var r := Update(d, key, event);
    assert r.order == d.order + [key];
    var before, after := ListEvents(d), ListEvents(r);
    var expected := before + [Listing(key, event.name, event.start)];
    forall i | 0 <= i < |r.order| ensures after[i] == expected[i] {
      if i < |d.order| {
        assert d.order[i] in d.events;
      }
    }
  }

  /** A sequence without repeats has as many distinct elements as entries. */
  lemma {:induction false} DistinctCardinality(s: seq<string>)
    requires forall i, j :: 0 <= i < j < |s| ==> s[i] != s[j]
    ensures |set k | k in s| == |s|
  {
    if s != [] {
      var t := s[1..];
      DistinctCardinality(t);
      assert (set k | k in s) == (set k | k in t) + {s[0]};
      assert s[0] !in (set k | k in t) by {
        forall i | 0 <= i < |t| ensures t[i] != s[0] {
          assert t[i] == s[i + 1];
        }
      }
    }
  }
}
