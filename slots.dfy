/** Slot generation for the signup menu: the progression
    `start.epochSeconds..end.epochSeconds step slotLength.inWholeSeconds`
    and the select-menu options built from it with `forEachIndexed`. */
module Slots {
  import opened Wrappers

  /** The closed progression `start..end step step`: `start, start + step, ...`
      up to and including the last value `<= end`; empty when `start > end`. */
  function SlotStarts(start: int, end: int, step: int): (r: seq<int>)
    requires step > 0
    ensures r == [] <==> start > end
    ensures start <= end ==> r[0] == start
    decreases end - start
  {
    if start > end then [] else [start] + SlotStarts(start + step, end, step)
  }

  /** Euclidean quotient and remainder are determined by `x == q * s + m`, `0 <= m < s`. */
  lemma DivModUnique(x: int, s: int, q: int, m: int)
    requires s > 0 && 0 <= m < s && x == q * s + m
    ensures x / s == q && x % s == m
  {
    var q', m' := x / s, x % s;
    assert x == q' * s + m' && 0 <= m' < s;
    var d := q' - q;
    assert d * s == m - m' by {
      assert q' * s - q * s == d * s;
    }
    if d > 0 {
      MulAtLeast(d, s);
    } else if d < 0 {
      MulAtLeast(-d, s);
    }
  }

  /** A positive multiple of `s` is at least `s`. */
  lemma MulAtLeast(a: int, s: int)
    requires a >= 1 && s > 0
    ensures a * s >= s
  {
    assert a * s == (a - 1) * s + s;
  }

  /** The number of slots is `(end - start) / step + 1`, or zero when `start > end`. */
  lemma {:induction false} SlotCount(start: int, end: int, step: int)
    requires step > 0
    ensures |SlotStarts(start, end, step)| == if start <= end then (end - start) / step + 1 else 0
    decreases end - start
  {
    if start <= end {
      SlotCount(start + step, end, step);
      var x := end - start;
      if start + step > end {
        DivModUnique(x, step, 0, x);
      } else {
        var q, m := (x - step) / step, (x - step) % step;
        DivModUnique(x, step, q + 1, m);
      }
    }
  }

  /** Slot `i` is `start + i * step`. */
  lemma {:induction false} SlotAt(start: int, end: int, step: int, i: nat)
    requires step > 0 && i < |SlotStarts(start, end, step)|
    ensures SlotStarts(start, end, step)[i] == start + i * step
    decreases end - start
  {
    if i > 0 {
      SlotAt(start + step, end, step, i - 1);
      assert (i - 1) * step + step == i * step;
    }
  }

  /** Every slot lies in `[start, end]`, and the slots strictly increase. */
  lemma {:induction false} SlotsBoundedAndIncreasing(start: int, end: int, step: int)
    requires step > 0
    ensures var r := SlotStarts(start, end, step);
      (forall i :: 0 <= i < |r| ==> start <= r[i] <= end) &&
      (forall i, j :: 0 <= i < j < |r| ==> r[i] < r[j])
    decreases end - start
  {
    if start <= end {
      SlotsBoundedAndIncreasing(start + step, end, step);
      var r := SlotStarts(start, end, step);
      assert forall i :: 1 <= i < |r| ==> r[i] == SlotStarts(start + step, end, step)[i - 1];
    }
  }

  /** The last slot is the last value of the progression not past `end`:
      one more step would overshoot. */
  lemma {:induction false} LastSlot(start: int, end: int, step: int)
    requires step > 0 && start <= end
    ensures var r := SlotStarts(start, end, step); end - step < r[|r| - 1] <= end
    decreases end - start
  {
    var r, rest := SlotStarts(start, end, step), SlotStarts(start + step, end, step);
    assert r == [start] + rest;
    if start + step <= end {
      LastSlot(start + step, end, step);
      assert r[|r| - 1] == rest[|rest| - 1];
    } else {
      assert rest == [];
    }
  }

  /** `end` itself is a slot iff the span is a multiple of `step`. */
  lemma EndIsSlot(start: int, end: int, step: int)
    requires step > 0
    ensures end in SlotStarts(start, end, step) <==> start <= end && (end - start) % step == 0
  {
    var r := SlotStarts(start, end, step);
    SlotCount(start, end, step);
    if end in r {
      var i :| 0 <= i < |r| && r[i] == end;
      SlotAt(start, end, step, i);
      DivModUnique(end - start, step, i, 0);
    }
    if start <= end && (end - start) % step == 0 {
      var q := (end - start) / step;
      DivModUnique(end - start, step, q, 0);
      SlotAt(start, end, step, q);
      assert r[q] == end;
    }
  }

  /** The slot list in full: empty when `start > end`; otherwise it starts at
      `start`, steps by `step`, stays within `end`, has `(end - start) / step + 1`
      entries, and offers a slot at exactly `end` iff the span is a multiple of `step`. */
  lemma SlotList(start: int, end: int, step: int)
    requires step > 0
    ensures var r := SlotStarts(start, end, step);
      (start > end ==> r == []) &&
      (start <= end ==> |r| == (end - start) / step + 1 && r[0] == start) &&
      (forall i :: 0 <= i < |r| ==> r[i] == start + i * step && start <= r[i] <= end) &&
      (forall i :: 0 <= i < |r| - 1 ==> r[i + 1] == r[i] + step) &&
      (forall i, j :: 0 <= i < j < |r| ==> r[i] < r[j]) &&
      (end in r <==> start <= end && (end - start) % step == 0)
  {
    var r := SlotStarts(start, end, step);
    SlotCount(start, end, step);
    SlotsBoundedAndIncreasing(start, end, step);
    EndIsSlot(start, end, step);
    forall i | 0 <= i < |r| ensures r[i] == start + i * step {
      SlotAt(start, end, step, i);
    }
    forall i | 0 <= i < |r| - 1 ensures r[i + 1] == r[i] + step {
      SlotAt(start, end, step, i);
      SlotAt(start, end, step, i + 1);
      assert (i + 1) * step == i * step + step;
    }
  }

  /** One option of the timeslot menu: its value (the slot's instant), the
      index shown as `slot: $index`, the `until` instant `slot + slotLength`,
      and whether it is pre-selected. */
  datatype SlotOption = SlotOption(value: int, index: nat, until: int, isDefault: bool)

  /** The option built for the slot `t` at position `i`; it is the default
      exactly when `t` is the session's `selectedTimeslot`. */
  function OptionFor(t: int, i: nat, step: int, selected: Option<int>): (o: SlotOption)
    ensures o.value == t && o.index == i && o.until - o.value == step
    ensures o.isDefault <==> selected == Some(o.value)
  {
    SlotOption(t, i, t + step, selected == Some(t))
  }

  /** The menu's options, one per slot in progression order. */
  function Options(start: int, end: int, step: int, selected: Option<int>): (r: seq<SlotOption>)
    requires step > 0
    ensures |r| == |SlotStarts(start, end, step)|
    ensures forall i :: 0 <= i < |r| ==>
      r[i].value == SlotStarts(start, end, step)[i] && r[i].index == i &&
      r[i].until == r[i].value + step && (r[i].isDefault <==> selected == Some(r[i].value))
  {
    var slots := SlotStarts(start, end, step);
    seq(|slots|, i requires 0 <= i < |slots| => OptionFor(slots[i], i, step, selected))
  }

  /** The options carry index `i`, value `start + i * step`, end time
      `value + step`, and at most one of them (the one equal to the selection)
      is the default. */
  lemma OptionsShape(start: int, end: int, step: int, selected: Option<int>)
    requires step > 0
    ensures var r := Options(start, end, step, selected);
      |r| == |SlotStarts(start, end, step)| &&
      (forall i :: 0 <= i < |r| ==>
        r[i].index == i && r[i].value == start + i * step && r[i].until == r[i].value + step &&
        (r[i].isDefault <==> selected == Some(r[i].value))) &&
      (forall i, j :: 0 <= i < |r| && 0 <= j < |r| && r[i].isDefault && r[j].isDefault ==> i == j) &&
      ((exists i :: 0 <= i < |r| && r[i].isDefault) <==>
        selected.Some? && selected.value in SlotStarts(start, end, step))
  {
    SlotList(start, end, step);
    var r := Options(start, end, step, selected);
    var slots := SlotStarts(start, end, step);
    if selected.Some? && selected.value in slots {
      var i :| 0 <= i < |slots| && slots[i] == selected.value;
      assert r[i].isDefault;
    }
  }

  /** The menu-building loop of `updateResponse`: walks the progression with an
      index and emits one option per slot. */
  method BuildOptions(start: int, end: int, step: int, selected: Option<int>)
    returns (opts: seq<SlotOption>)
    requires step > 0
    ensures opts == Options(start, end, step, selected)
  {
    opts := [];
    var t := start;
    ghost var slots := SlotStarts(start, end, step);
    while t <= end
      invariant |opts| <= |slots| && SlotStarts(t, end, step) == slots[|opts|..]
      invariant forall k :: 0 <= k < |opts| ==> opts[k] == OptionFor(slots[k], k, step, selected)
      decreases end - t
    {
      var n := |opts|;
      var rest := SlotStarts(t + step, end, step);
      assert slots[n..] == [t] + rest;
      assert slots[n] == t && slots[n + 1..] == slots[n..][1..] == rest;
      opts := opts + [OptionFor(t, n, step, selected)];
      t := t + step;
    }
  }

  /** 2024-01-01T00:00:00Z to 02:00:00Z in 30-minute slots offers five slots,
      the last one at exactly the end. */
  lemma TwoHoursInHalfHours()
    ensures SlotStarts(1704067200, 1704074400, 1800) ==
      [1704067200, 1704069000, 1704070800, 1704072600, 1704074400]
  {
    assert SlotStarts(1704074400 + 1800, 1704074400, 1800) == [];
    assert SlotStarts(1704074400, 1704074400, 1800) == [1704074400];
    assert SlotStarts(1704072600, 1704074400, 1800) == [1704072600, 1704074400];
    assert SlotStarts(1704070800, 1704074400, 1800) == [1704070800, 1704072600, 1704074400];
    assert SlotStarts(1704069000, 1704074400, 1800) ==
      [1704069000, 1704070800, 1704072600, 1704074400];
  }
}
