/** The free-slot effect of src/App.tsx (lines 58-72) and the slot button
    label (line 111). The working-hours grid `hours` comes from a module that
    is not part of this model, so it is a parameter here. */
module App {
  import opened SlotFilter
  import opened Formatter

  /** A busy interval as the backend reports it: two ISO-style timestamps. */
  datatype Payload = Payload(start: string, end: string)

  /** Every timestamp carries the 'T' that `formatTimeStr` splits on. */
  predicate Formattable(data: seq<Payload>)
  {
    forall k :: 0 <= k < |data| ==> 'T' in data[k].start && 'T' in data[k].end
  }

  /** What each busy interval leaves of the grid, in the order of `data`. */
  function Parts(hours: seq<TimeToken>, data: seq<Payload>): (r: seq<seq<TimeToken>>)
    requires Formattable(data)
    ensures |r| == |data|
  {
    seq(|data|, k requires 0 <= k < |data| =>
      Filter(hours, FormatTimeStr(data[k].start), FormatTimeStr(data[k].end)))
  }

  /** The in-order concatenation of lists, as repeated `[...prev, ...next]`. */
  function Flatten(parts: seq<seq<TimeToken>>): (r: seq<TimeToken>)
  {
    if parts == [] then [] else Flatten(parts[..|parts| - 1]) + parts[|parts| - 1]
  }

  /** The free list the effect settles on: the whole grid when nothing is
      busy, the concatenation of the parts otherwise. */
  function FreeTimeInt(hours: seq<TimeToken>, data: seq<Payload>): (r: seq<TimeToken>)
    requires Formattable(data)
  {
    if |data| == 0 then hours else Flatten(Parts(hours, data))
  }

  /** `hour.substring(0, hour.length - 3)`: the token without its `:SS`
      seconds; a negative end counts as 0, so a token shorter than three
      characters gives the empty label. */
  function ButtonLabel(hour: string): (r: string)
    ensures r <= hour
    ensures |r| == if |hour| >= 3 then |hour| - 3 else 0
  {
    hour[..if |hour| >= 3 then |hour| - 3 else 0]
  }

  /** Putting the three cut characters back gives the token again; for an
      `HH:MM:SS` token the label is `HH:MM`. */
  lemma ButtonLabelDropsSeconds(hh: string, mm: string, ss: string)
    requires |ss| == 2
    ensures ButtonLabel(hh + ":" + mm + ":" + ss) == hh + ":" + mm
    ensures ButtonLabel(hh + ":" + mm + ":" + ss) + ":" + ss == hh + ":" + mm + ":" + ss
  {
  }

  /** The grid token `08:30:00` is shown as `08:30`. */
  lemma ButtonLabelExample()
    ensures ButtonLabel("08:30:00") == "08:30"
  {
  }

  /** Holder of the `freeTimeInt` state of the component. */
  class FreeTimeView {
    var freeTimeInt: seq<TimeToken>

    /** `useState<string[]>([])`. */
    constructor ()
      ensures freeTimeInt == []
    {
      freeTimeInt := [];
    }

    /** The effect that runs when `data` changes: reset the free list, then
        take the whole grid when nothing is busy, or append, interval by
        interval, what each of them leaves of the grid. The new value does not
        depend on the old one. */
    method OnDataChange(hours: seq<TimeToken>, data: seq<Payload>)
      requires Formattable(data)
      modifies this
      ensures freeTimeInt == FreeTimeInt(hours, data)
    {
      freeTimeInt := [];
      if |data| == 0 {
        freeTimeInt := hours;
      } else {
        var k := 0;
        while k < |data|
          invariant 0 <= k <= |data|
          invariant freeTimeInt == Flatten(Parts(hours, data)[..k])
        {
          var val := data[k];
          freeTimeInt := freeTimeInt + Filter(hours, FormatTimeStr(val.start), FormatTimeStr(val.end));
          ghost var done := Parts(hours, data)[..k + 1];
          assert done[..k] == Parts(hours, data)[..k];
          k := k + 1;
        }
        assert Parts(hours, data)[..|data|] == Parts(hours, data);
      }
    }
  }

  /** With no busy interval every grid slot is free, exactly once and in order. */
  lemma FreeTimeNoBusy(hours: seq<TimeToken>)
    ensures FreeTimeInt(hours, []) == hours
  {
  }

  /** Concatenating two batches of parts is concatenating their flattenings. */
  lemma {:induction false} FlattenAppend(first: seq<seq<TimeToken>>, second: seq<seq<TimeToken>>)
    ensures Flatten(first + second) == Flatten(first) + Flatten(second)
    decreases |second|
  {
    var all := first + second;
    if second == [] {
      assert all == first;
    } else {
      var init := second[..|second| - 1];
      var last := second[|second| - 1];
      FlattenAppend(first, init);
      assert all[..|all| - 1] == first + init;
      assert all[|all| - 1] == last;
      assert Flatten(all) == Flatten(first + init) + last;
      assert Flatten(second) == Flatten(init) + last;
    }
  }

  /** Parts of at most `n` entries each flatten to at most `|parts| * n` entries. */
  lemma {:induction false} FlattenLength(parts: seq<seq<TimeToken>>, n: nat)
    requires forall k :: 0 <= k < |parts| ==> |parts[k]| <= n
    ensures |Flatten(parts)| <= |parts| * n
  {
    if parts != [] {
      var init := parts[..|parts| - 1];
      assert forall k :: 0 <= k < |init| ==> init[k] == parts[k];
      FlattenLength(init, n);
      MulStep(|init|, n);
    }
  }

  lemma MulStep(m: nat, n: nat)
    ensures (m + 1) * n == m * n + n
  {
  }

  /** An entry is in the concatenation exactly when it is in one of the parts. */
  lemma {:induction false} FlattenMembers(parts: seq<seq<TimeToken>>, x: TimeToken)
    ensures x in Flatten(parts) <==> exists k :: 0 <= k < |parts| && x in parts[k]
  {
    if parts != [] {
      var init := parts[..|parts| - 1];
      FlattenMembers(init, x);
      assert forall k :: 0 <= k < |init| ==> init[k] == parts[k];
    }
  }

  /** An entry occurring exactly once in every part occurs once per part. */
  lemma {:induction false} FlattenCount(parts: seq<seq<TimeToken>>, x: TimeToken)
    requires forall k :: 0 <= k < |parts| ==> multiset(parts[k])[x] == 1
    ensures multiset(Flatten(parts))[x] == |parts|
  {
    if parts != [] {
      var init := parts[..|parts| - 1];
      assert forall k :: 0 <= k < |init| ==> init[k] == parts[k];
      FlattenCount(init, x);
    }
  }

  /** Empty parts flatten to the empty list. */
  lemma {:induction false} FlattenEmpty(parts: seq<seq<TimeToken>>)
    requires forall k :: 0 <= k < |parts| ==> parts[k] == []
    ensures Flatten(parts) == []
  {
    if parts != [] {
      var init := parts[..|parts| - 1];
      assert forall k :: 0 <= k < |init| ==> init[k] == parts[k];
      FlattenEmpty(init);
    }
  }

  /** Two batches of busy intervals give the two free lists one after the other. */
  lemma FreeTimeConcat(hours: seq<TimeToken>, first: seq<Payload>, second: seq<Payload>)
    requires Formattable(first) && Formattable(second) && |first| > 0 && |second| > 0
    ensures Formattable(first + second)
    ensures FreeTimeInt(hours, first + second) == FreeTimeInt(hours, first) + FreeTimeInt(hours, second)
  {
    var all := first + second;
    assert forall k :: 0 <= k < |all| ==> all[k] == if k < |first| then first[k] else second[k - |first|];
    assert Parts(hours, all) == Parts(hours, first) + Parts(hours, second);
    FlattenAppend(Parts(hours, first), Parts(hours, second));
  }

  /** The total length of a list of parts. */
  function SumLengths(parts: seq<seq<TimeToken>>): (r: nat)
  {
    if parts == [] then 0 else SumLengths(parts[..|parts| - 1]) + |parts[|parts| - 1]|
  }

  /** The concatenation is as long as all the parts together. */
  lemma {:induction false} FlattenLengthSum(parts: seq<seq<TimeToken>>)
    ensures |Flatten(parts)| == SumLengths(parts)
  {
    if parts != [] {
      FlattenLengthSum(parts[..|parts| - 1]);
    }
  }

  /** With no busy interval the free list is as long as the grid; otherwise it
      is as long as the per-interval `filter` results together, so it holds at
      most one copy of the grid per busy interval. */
  lemma FreeTimeLength(hours: seq<TimeToken>, data: seq<Payload>)
    requires Formattable(data)
    ensures |data| == 0 ==> |FreeTimeInt(hours, data)| == |hours|
    ensures |data| > 0 ==> |FreeTimeInt(hours, data)| == SumLengths(Parts(hours, data))
    ensures |data| > 0 ==> |FreeTimeInt(hours, data)| <= |data| * |hours|
  {
    if |data| > 0 {
      var p := Parts(hours, data);
      assert forall k :: 0 <= k < |p| ==> |p[k]| <= |hours|;
      FlattenLengthSum(p);
      FlattenLength(p, |hours|);
    }
  }

  /** Every free slot is a grid slot. */
  lemma FreeTimeInGrid(hours: seq<TimeToken>, data: seq<Payload>)
    requires Formattable(data)
    ensures forall x :: x in FreeTimeInt(hours, data) ==> x in hours
  {
    if data != [] {
      var p := Parts(hours, data);
      forall x | x in Flatten(p) ensures x in hours {
        FlattenMembers(p, x);
        var k :| 0 <= k < |p| && x in p[k];
        FilterIsSubsequence(hours, FormatTimeStr(data[k].start), FormatTimeStr(data[k].end));
      }
    }
  }

  /** A busy interval whose formatted start or end is missing from the grid. */
  predicate Unmatched(hours: seq<TimeToken>, val: Payload)
    requires 'T' in val.start && 'T' in val.end
  {
    FormatTimeStr(val.start) !in hours || FormatTimeStr(val.end) !in hours
  }

  /** When every interval has a token that is not on the grid, nothing is
      free: the list is empty, not the whole grid. */
  lemma AllUnmatchedNothingFree(hours: seq<TimeToken>, data: seq<Payload>)
    requires Formattable(data) && |data| > 0
    requires forall k :: 0 <= k < |data| ==> Unmatched(hours, data[k])
    ensures FreeTimeInt(hours, data) == []
  {
    var p := Parts(hours, data);
    forall k | 0 <= k < |p| ensures p[k] == [] {
      FilterUnmatched(hours, FormatTimeStr(data[k].start), FormatTimeStr(data[k].end));
    }
    FlattenEmpty(p);
  }

  /** On a grid without repeats, a slot that every one of the N busy intervals
      leaves free appears exactly N times in the free list: nothing is
      de-duplicated. */
  lemma UntouchedSlotRepeats(hours: seq<TimeToken>, data: seq<Payload>, slot: TimeToken)
    requires Distinct(hours)
    requires Formattable(data) && |data| > 0
    requires forall k :: 0 <= k < |data| ==>
      slot in Filter(hours, FormatTimeStr(data[k].start), FormatTimeStr(data[k].end))
    ensures multiset(FreeTimeInt(hours, data))[slot] == |data|
  {
    var p := Parts(hours, data);
    forall k | 0 <= k < |p| ensures multiset(p[k])[slot] == 1 {
      FilterIsSubsequence(hours, FormatTimeStr(data[k].start), FormatTimeStr(data[k].end));
      DistinctAtMostOnce(hours, slot);
      assert slot in p[k];
    }
    FlattenCount(p, slot);
  }

  /** The flattening of a single part is that part. */
  lemma FlattenSingle(part: seq<TimeToken>)
    ensures Flatten([part]) == part
  {
  }

  /** A single busy interval leaves exactly what `filter` leaves for it. */
  lemma FreeTimeSingle(hours: seq<TimeToken>, val: Payload)
    requires 'T' in val.start && 'T' in val.end
    ensures Formattable([val])
    ensures FreeTimeInt(hours, [val]) == Filter(hours, FormatTimeStr(val.start), FormatTimeStr(val.end))
  {
    FlattenSingle(Filter(hours, FormatTimeStr(val.start), FormatTimeStr(val.end)));
    assert Parts(hours, [val]) == [Filter(hours, FormatTimeStr(val.start), FormatTimeStr(val.end))];
  }

  /** A busy interval given by backend timestamps of one date. */
  function BusyOn(date: string, from: TimeToken, to: TimeToken): (r: Payload)
  {
    Payload(date + "T" + from + ".000Z", date + "T" + to + ".000Z")
  }

  /** One busy interval from 08:30 to 09:00 on the grid 08:00 ... 10:00 in
      half hours leaves 08:00, 09:30 and 10:00. */
  lemma OneBusyIntervalScenario(date: string)
    requires 'T' !in date
    ensures var grid := ["08:00:00", "08:30:00", "09:00:00", "09:30:00", "10:00:00"];
      var busy := [BusyOn(date, "08:30:00", "09:00:00")];
      Formattable(busy) && FreeTimeInt(grid, busy) == ["08:00:00", "09:30:00", "10:00:00"]
  {
    var grid := ["08:00:00", "08:30:00", "09:00:00", "09:30:00", "10:00:00"];
    FormatTimeStrBackend(date, "08:30:00");
    FormatTimeStrBackend(date, "09:00:00");
    FreeTimeSingle(grid, BusyOn(date, "08:30:00", "09:00:00"));
    FilterMatched(grid, "08:30:00", "09:00:00", 1, 2);
    assert grid[..1] + grid[3..] == ["08:00:00", "09:30:00", "10:00:00"];
  }

  /** A busy interval at 09:30 alone leaves every other slot. */
  lemma SingleSlotIntervalScenario(date: string)
    requires 'T' !in date
    ensures var grid := ["08:00:00", "08:30:00", "09:00:00", "09:30:00", "10:00:00"];
      var busy := [BusyOn(date, "09:30:00", "09:30:00")];
      Formattable(busy) && FreeTimeInt(grid, busy) == ["08:00:00", "08:30:00", "09:00:00", "10:00:00"]
  {
    var grid := ["08:00:00", "08:30:00", "09:00:00", "09:30:00", "10:00:00"];
    FormatTimeStrBackend(date, "09:30:00");
    FreeTimeSingle(grid, BusyOn(date, "09:30:00", "09:30:00"));
    FilterMatched(grid, "09:30:00", "09:30:00", 3, 3);
    assert grid[..3] + grid[4..] == ["08:00:00", "08:30:00", "09:00:00", "10:00:00"];
  }

  /** Both intervals together: what the second leaves is appended to what the
      first leaves, so 08:00 and 10:00 are listed twice, and 08:30 and 09:00,
      busy in the first interval, come back from the second. */
  lemma TwoBusyIntervalsScenario(date: string)
    requires 'T' !in date
    ensures var grid := ["08:00:00", "08:30:00", "09:00:00", "09:30:00", "10:00:00"];
      var busy := [BusyOn(date, "08:30:00", "09:00:00"), BusyOn(date, "09:30:00", "09:30:00")];
      Formattable(busy) && FreeTimeInt(grid, busy) ==
        ["08:00:00", "09:30:00", "10:00:00", "08:00:00", "08:30:00", "09:00:00", "10:00:00"]
  {
    var grid := ["08:00:00", "08:30:00", "09:00:00", "09:30:00", "10:00:00"];
    var first, second := BusyOn(date, "08:30:00", "09:00:00"), BusyOn(date, "09:30:00", "09:30:00");
    OneBusyIntervalScenario(date);
    SingleSlotIntervalScenario(date);
    FreeTimePair(grid, first, second);
  }

  /** Two single busy intervals in a row give their free lists one after the other. */
  lemma FreeTimePair(hours: seq<TimeToken>, first: Payload, second: Payload)
    requires Formattable([first]) && Formattable([second])
    ensures Formattable([first, second])
    ensures FreeTimeInt(hours, [first, second]) == FreeTimeInt(hours, [first]) + FreeTimeInt(hours, [second])
  {
    FreeTimeConcat(hours, [first], [second]);
    assert [first] + [second] == [first, second];
  }
}
