/**
  The half-hour layer of the API parser: `"H:M"` keys to slot indices and
  back, the per-slot outage flags decoded from an API `times` object, and
  the run-length encoding of outage slots into `"HH:MM - HH:MM"` intervals.
*/
module HalfHours {
  import opened Results
  import opened Text
  import opened PyInt

  /** Half-hour slots in a day. */
  const SLOTS := 48

  const OUTAGE := "no"
  const POWER := "yes"

  /**
    `time_to_half_hour_index`: the key split on `:` must give exactly two
    integers; the hour must lie in 0..23 and the minute be 0 or 30. Any
    failure, including a `ValueError` from `int()` or from unpacking, gives
    `None`.
  */
  function TimeToHalfHourIndex(t: string): (r: Option<nat>)
    ensures r.Some? ==> r.value < SLOTS
  {
    var parts := SplitOn(t, ':');
    if |parts| != 2 then None else ClockSlot(ParseInt(parts[0]), ParseInt(parts[1]))
  }

  /** The slot of a parsed hour and minute, when both parsed and are in range. */
  function ClockSlot(h: Option<int>, m: Option<int>): (r: Option<nat>)
    ensures r.Some? ==> r.value < SLOTS
  {
    if h.None? || m.None? then None
    else if h.value < 0 || h.value > 23 || (m.value != 0 && m.value != 30) then None
    else Some(2 * h.value + (if m.value == 30 then 1 else 0))
  }

  /** The hour and minute a slot is read from. */
  lemma ClockSlotIs(h: Option<int>, m: Option<int>, i: nat)
    ensures ClockSlot(h, m) == Some(i) <==>
              i < SLOTS && h == Some(i / 2) && m == Some(if i % 2 == 1 then 30 else 0)
  {
  }

  /** `format_half_hour_time`: the zero-padded hour `idx // 2`, a colon, and `30` for odd slots or `00`. */
  function FormatHalfHourTime(idx: nat): string {
    Pad2(idx / 2) + ":" + Pad2(if idx % 2 == 1 then 30 else 0)
  }

  /** `t` is two parts around a single colon, integer literals for the hour and minute of slot `i`. */
  ghost predicate ReadsAs(t: string, i: nat) {
    i < SLOTS &&
    exists a, b :: (t == a + ":" + b && ':' !in a && ':' !in b &&
                    ParseInt(a) == Some(i / 2) && ParseInt(b) == Some(if i % 2 == 1 then 30 else 0))
  }

  /** A key read as slot `i` is two integer literals for the hour and minute of `i`, around a single colon. */
  lemma TimeToHalfHourIndexSound(t: string, i: nat)
    requires TimeToHalfHourIndex(t) == Some(i)
    ensures ReadsAs(t, i)
  {
    var parts := SplitOn(t, ':');
    SplitOnTwoParts(t, ':');
    var a, b := parts[0], parts[1];
    assert t == a + ":" + b && ':' !in a && ':' !in b;
    ClockSlotIs(ParseInt(a), ParseInt(b), i);
  }

  /** Two integer literals for the hour and minute of slot `i`, around a single colon, are read as slot `i`. */
  lemma TimeToHalfHourIndexComplete(a: string, b: string, i: nat)
    requires i < SLOTS && ':' !in a && ':' !in b
    requires ParseInt(a) == Some(i / 2) && ParseInt(b) == Some(if i % 2 == 1 then 30 else 0)
    ensures TimeToHalfHourIndex(a + ":" + b) == Some(i)
  {
    SplitOnTwo(a, b, ':');
    assert a + [':'] + b == a + ":" + b;
    ClockSlotIs(ParseInt(a), ParseInt(b), i);
  }

  /** Both directions together: the parser accepts exactly the keys `ReadsAs` describes. */
  lemma TimeToHalfHourIndexChar(t: string, i: nat)
    ensures TimeToHalfHourIndex(t) == Some(i) <==> ReadsAs(t, i)
  {
    if TimeToHalfHourIndex(t) == Some(i) {
      TimeToHalfHourIndexSound(t, i);
    }
    if ReadsAs(t, i) {
      var a, b :| t == a + ":" + b && ':' !in a && ':' !in b &&
                  ParseInt(a) == Some(i / 2) && ParseInt(b) == Some(if i % 2 == 1 then 30 else 0);
      TimeToHalfHourIndexComplete(a, b, i);
    }
  }

  lemma DigitsHaveNoColon(s: string)
    requires AllDigits(s)
    ensures ':' !in s
  {
  }

  lemma ParsePad2(n: nat)
    ensures ParseInt(Pad2(n)) == Some(n)
  {
    ParseIntOfDigits(Pad2(n));
    Pad2Value(n);
  }

  /** Formatting a slot and reading it back gives the slot. */
  lemma FormatRoundTrip(i: nat)
    requires i < SLOTS
    ensures TimeToHalfHourIndex(FormatHalfHourTime(i)) == Some(i)
  {
    var m := if i % 2 == 1 then 30 else 0;
    DigitsHaveNoColon(Pad2(i / 2));
    DigitsHaveNoColon(Pad2(m));
    ParsePad2(i / 2);
    ParsePad2(m);
    TimeToHalfHourIndexComplete(Pad2(i / 2), Pad2(m), i);
  }

  /** Distinct slots (the end-of-day slot 48 included) are formatted differently. */
  lemma FormatInjective(i: nat, j: nat)
    requires i <= SLOTS && j <= SLOTS
    ensures FormatHalfHourTime(i) == FormatHalfHourTime(j) ==> i == j
  {
    if i < SLOTS && j < SLOTS {
      FormatRoundTrip(i);
      FormatRoundTrip(j);
    } else if FormatHalfHourTime(i) == FormatHalfHourTime(j) {
      var s := FormatHalfHourTime(i);
      DigitsHaveNoColon(Pad2(i / 2));
      DigitsHaveNoColon(Pad2(j / 2));
      Pad2Prefix(i);
      Pad2Prefix(j);
      Pad2Value(i / 2);
      Pad2Value(j / 2);
      assert Pad2(i / 2) == s[..2] == Pad2(j / 2);
      assert s[3..] == Pad2(if i % 2 == 1 then 30 else 0) == Pad2(if j % 2 == 1 then 30 else 0);
      Pad2Value(if i % 2 == 1 then 30 else 0);
      Pad2Value(if j % 2 == 1 then 30 else 0);
    }
  }

  lemma Pad2Prefix(i: nat)
    requires i <= SLOTS
    ensures |Pad2(i / 2)| == 2 && |Pad2(if i % 2 == 1 then 30 else 0)| == 2
    ensures FormatHalfHourTime(i)[..2] == Pad2(i / 2)
    ensures FormatHalfHourTime(i)[3..] == Pad2(if i % 2 == 1 then 30 else 0)
  {
  }

  /** The sentinel slot after the last one of the day is written `24:00`. */
  lemma EndOfDayFormat()
    ensures FormatHalfHourTime(SLOTS) == "24:00"
  {
  }

  /** `is_outage_value`: `str(value)` is "1" or "10". */
  predicate IsOutageValue(v: JsonValue) {
    PyStr(v) == "1" || PyStr(v) == "10"
  }

  /** An integer and a string of the same code count alike: exactly 1, 10, "1" and "10" (and values printed so) are outages. */
  lemma IsOutageValueChar(v: JsonValue)
    ensures IsOutageValue(v) <==> v in {Int(1), Int(10), Str("1"), Str("10"), Other("1"), Other("10")}
  {
    assert NatToString(1) == "1";
    assert NatToString(10) == "10";
    PyStrIsCode(v, 1);
    PyStrIsCode(v, 10);
  }

  /** A maximal run of outage slots: from `start` up to, not including, `stop`. */
  datatype Span = Span(start: nat, stop: nat)

  /** The end of the run of outage slots starting at `i`. */
  function RunEnd(s: seq<string>, i: nat): (e: nat)
    requires i <= |s|
    ensures i <= e <= |s|
    ensures forall q :: i <= q < e ==> s[q] == OUTAGE
    ensures e == |s| || s[e] != OUTAGE
    decreases |s| - i
  {
    if i < |s| && s[i] == OUTAGE then RunEnd(s, i + 1) else i
  }

  /** The maximal outage runs of `s` that start at or after `i`, in order. */
  function RunsFrom(s: seq<string>, i: nat): seq<Span>
    requires i <= |s|
    decreases |s| - i
  {
    if i == |s| then []
    else if s[i] != OUTAGE then RunsFrom(s, i + 1)
    else
      var e := RunEnd(s, i);
      [Span(i, e)] + RunsFrom(s, e)
  }

  function Runs(s: seq<string>): seq<Span> {
    RunsFrom(s, 0)
  }

  /** `start - end`, each slot formatted. */
  function IntervalText(r: Span): string {
    FormatHalfHourTime(r.start) + " - " + FormatHalfHourTime(r.stop)
  }

  function Texts(runs: seq<Span>): (t: seq<string>)
    ensures |t| == |runs|
  {
    seq(|runs|, k requires 0 <= k < |runs| => IntervalText(runs[k]))
  }

  lemma TextsAppend(runs: seq<Span>, r: Span)
    ensures Texts(runs + [r]) == Texts(runs) + [IntervalText(r)]
  {
  }

  /** The intervals reported for the slots: one text per maximal outage run. */
  function Intervals(s: seq<string>): seq<string> {
    Texts(Runs(s))
  }

  /** A run of outage slots from `start` that stops at `i` ends at `i`. */
  lemma RunEndAt(s: seq<string>, start: nat, i: nat)
    requires start <= i <= |s|
    requires forall q :: start <= q < i ==> s[q] == OUTAGE
    requires i == |s| || s[i] != OUTAGE
    ensures RunEnd(s, start) == i
    decreases i - start
  {
  }

  /** Closing the open run at `i` moves it to the runs already reported. */
  lemma CloseRun(s: seq<string>, runs: seq<Span>, done: seq<Span>, start: nat, i: nat)
    requires start < i <= |s|
    requires forall q :: start <= q < i ==> s[q] == OUTAGE
    requires i == |s| || s[i] != OUTAGE
    requires runs == done + RunsFrom(s, start)
    ensures runs == (done + [Span(start, i)]) + RunsFrom(s, i)
  {
  }

  /** A slot without an outage, outside any run, adds nothing. */
  lemma SkipSlot(s: seq<string>, runs: seq<Span>, done: seq<Span>, i: nat)
    requires i < |s| && s[i] != OUTAGE
    requires runs == done + RunsFrom(s, i)
    ensures runs == done + RunsFrom(s, i + 1)
  {
  }

  /**
    `build_intervals_from_half_hours`: one pass over the slots and a sentinel
    power-on slot after them; an outage run opens at its first slot and is
    reported when the first slot without an outage, or the sentinel, is met.
  */
  method BuildIntervalsFromHalfHours(halfHours: seq<string>) returns (intervals: seq<string>)
    ensures intervals == Intervals(halfHours)
  {
    intervals := [];
    ghost var done: seq<Span> := [];
    var inOutage := false;
    var startIdx := 0;
    var count := |halfHours|;
    ghost var runs := Runs(halfHours);
    for i := 0 to count + 1
      invariant intervals == Texts(done)
      invariant !inOutage ==> runs == done + RunsFrom(halfHours, if i < count then i else count)
      invariant inOutage ==> startIdx < i <= count && runs == done + RunsFrom(halfHours, startIdx)
      invariant inOutage ==> forall q :: startIdx <= q < i ==> halfHours[q] == OUTAGE
    {
      var status := if i < count then halfHours[i] else POWER;
      if !inOutage && status == OUTAGE {
        inOutage := true;
        startIdx := i;
      }
      if inOutage && status != OUTAGE {
        CloseRun(halfHours, runs, done, startIdx, i);
        TextsAppend(done, Span(startIdx, i));
        intervals := intervals + [IntervalText(Span(startIdx, i))];
        done := done + [Span(startIdx, i)];
        inOutage := false;
      }
      if !inOutage && i < count {
        SkipSlot(halfHours, runs, done, i);
      }
    }
    assert done + [] == done;
  }

  /**
    `runs` are maximal outage runs of `s` at or after `i`, in order and
    separated by at least one other slot.
  */
  ghost predicate MaximalRuns(s: seq<string>, i: nat, runs: seq<Span>) {
    RunsWithin(s, i, runs) && RunsOfOutages(s, runs) && RunsMaximal(s, runs) && RunsOrdered(runs)
  }

  ghost predicate RunsWithin(s: seq<string>, i: nat, runs: seq<Span>) {
    forall k :: 0 <= k < |runs| ==> i <= runs[k].start < runs[k].stop <= |s|
  }

  ghost predicate RunsOfOutages(s: seq<string>, runs: seq<Span>) {
    forall k, q :: 0 <= k < |runs| && runs[k].start <= q < runs[k].stop && q < |s| ==> s[q] == OUTAGE
  }

  ghost predicate RunsMaximal(s: seq<string>, runs: seq<Span>) {
    && (forall k :: 0 <= k < |runs| && 0 < runs[k].start <= |s| ==> s[runs[k].start - 1] != OUTAGE)
    && (forall k :: 0 <= k < |runs| && runs[k].stop < |s| ==> s[runs[k].stop] != OUTAGE)
  }

  ghost predicate RunsOrdered(runs: seq<Span>) {
    forall k, l :: 0 <= k < l < |runs| ==> runs[k].stop < runs[l].start
  }

  lemma MaximalRunsFrom(s: seq<string>, i: nat, j: nat, runs: seq<Span>)
    requires i <= j && MaximalRuns(s, j, runs)
    ensures MaximalRuns(s, i, runs)
  {
  }

  /** A maximal run put before maximal runs that follow it keeps them maximal. */
  lemma ConsRun(s: seq<string>, i: nat, e: nat, tail: seq<Span>)
    requires i < e <= |s|
    requires forall q :: i <= q < e ==> s[q] == OUTAGE
    requires i == 0 || s[i - 1] != OUTAGE
    requires e == |s| || s[e] != OUTAGE
    requires MaximalRuns(s, e, tail)
    ensures MaximalRuns(s, i, [Span(i, e)] + tail)
  {
    var r := [Span(i, e)] + tail;
    ConsRunWithin(s, i, e, tail);
    ConsRunOfOutages(s, i, e, tail);
    ConsRunMaximal(s, i, e, tail);
    ConsRunOrdered(s, i, e, tail);
  }

  lemma ConsRunWithin(s: seq<string>, i: nat, e: nat, tail: seq<Span>)
    requires i < e <= |s| && RunsWithin(s, e, tail)
    ensures RunsWithin(s, i, [Span(i, e)] + tail)
  {
  }

  lemma ConsRunOfOutages(s: seq<string>, i: nat, e: nat, tail: seq<Span>)
    requires forall q :: i <= q < e && q < |s| ==> s[q] == OUTAGE
    requires RunsOfOutages(s, tail)
    ensures RunsOfOutages(s, [Span(i, e)] + tail)
  {
  }

  lemma ConsRunMaximal(s: seq<string>, i: nat, e: nat, tail: seq<Span>)
    requires i == 0 || i > |s| || s[i - 1] != OUTAGE
    requires e >= |s| || s[e] != OUTAGE
    requires RunsMaximal(s, tail)
    ensures RunsMaximal(s, [Span(i, e)] + tail)
  {
  }

  lemma ConsRunOrdered(s: seq<string>, i: nat, e: nat, tail: seq<Span>)
    requires e <= |s| && (e == |s| || s[e] != OUTAGE)
    requires RunsWithin(s, e, tail) && RunsOfOutages(s, tail) && RunsOrdered(tail)
    ensures RunsOrdered([Span(i, e)] + tail)
  {
  }

  lemma RunsFromSkip(s: seq<string>, i: nat)
    requires i < |s| && s[i] != OUTAGE
    ensures RunsFrom(s, i) == RunsFrom(s, i + 1)
  {
  }

  lemma RunsFromRun(s: seq<string>, i: nat)
    requires i < |s| && s[i] == OUTAGE
    ensures RunsFrom(s, i) == [Span(i, RunEnd(s, i))] + RunsFrom(s, RunEnd(s, i))
  {
  }

  /** The runs found from `i` are maximal, ordered and separated. */
  lemma {:induction false} RunsFromShape(s: seq<string>, i: nat)
    requires i <= |s|
    requires i == 0 || i == |s| || s[i - 1] != OUTAGE || s[i] != OUTAGE
    ensures MaximalRuns(s, i, RunsFrom(s, i))
    decreases |s| - i
  {
    if i < |s| {
      if s[i] != OUTAGE {
        RunsFromSkip(s, i);
        RunsFromShape(s, i + 1);
        MaximalRunsFrom(s, i, i + 1, RunsFrom(s, i + 1));
      } else {
        var e := RunEnd(s, i);
        RunsFromRun(s, i);
        RunsFromShape(s, e);
        ConsRun(s, i, e, RunsFrom(s, e));
      }
    }
  }

  /** `q` lies in one of the runs. */
  predicate Covered(runs: seq<Span>, q: int) {
    exists k :: 0 <= k < |runs| && runs[k].start <= q < runs[k].stop
  }

  /** Every outage slot at or after `i` lies in one of the runs found from `i`. */
  lemma {:induction false} RunsFromCover(s: seq<string>, i: nat)
    requires i <= |s|
    ensures forall q :: i <= q < |s| && s[q] == OUTAGE ==> Covered(RunsFrom(s, i), q)
    decreases |s| - i
  {
    if i < |s| {
      var r := RunsFrom(s, i);
      if s[i] != OUTAGE {
        RunsFromCover(s, i + 1);
      } else {
        var e := RunEnd(s, i);
        RunsFromCover(s, e);
        var tail := RunsFrom(s, e);
        forall q | i <= q < |s| && s[q] == OUTAGE ensures Covered(r, q) {
          if q < e {
            assert r[0] == Span(i, e);
          } else {
            var k :| 0 <= k < |tail| && tail[k].start <= q < tail[k].stop;
            assert r[k + 1] == tail[k];
          }
        }
      }
    }
  }

  /** The slots a list of runs describes: an outage inside a run, power elsewhere. */
  function Decode(runs: seq<Span>, n: nat): (s: seq<string>)
    ensures |s| == n
  {
    seq(n, q => if Covered(runs, q) then OUTAGE else POWER)
  }

  /** Every slot that is not an outage read as power. */
  function Normalize(s: seq<string>): (t: seq<string>)
    ensures |t| == |s|
  {
    seq(|s|, q requires 0 <= q < |s| => if s[q] == OUTAGE then OUTAGE else POWER)
  }

  /** Decoding the runs gives back the slots, every non-outage slot read as power. */
  lemma DecodeRuns(s: seq<string>)
    ensures Decode(Runs(s), |s|) == Normalize(s)
  {
    var r := Runs(s);
    RunsFromShape(s, 0);
    RunsFromCover(s, 0);
    forall q | 0 <= q < |s| ensures Decode(r, |s|)[q] == Normalize(s)[q] {
      if Covered(r, q) {
        var k :| 0 <= k < |r| && r[k].start <= q < r[k].stop;
      }
    }
  }

  lemma {:induction false} RunEndNormalize(s: seq<string>, i: nat)
    requires i <= |s|
    ensures RunEnd(Normalize(s), i) == RunEnd(s, i)
    decreases |s| - i
  {
    if i < |s| && s[i] == OUTAGE {
      RunEndNormalize(s, i + 1);
    }
  }

  /** Only which slots are outages matters to the runs. */
  lemma {:induction false} RunsFromNormalize(s: seq<string>, i: nat)
    requires i <= |s|
    ensures RunsFrom(Normalize(s), i) == RunsFrom(s, i)
    decreases |s| - i
  {
    if i < |s| {
      if s[i] != OUTAGE {
        RunsFromNormalize(s, i + 1);
      } else {
        RunEndNormalize(s, i);
        RunsFromNormalize(s, RunEnd(s, i));
      }
    }
  }

  /** Decoding the intervals back to slots and encoding again gives the same runs and the same texts. */
  lemma ReencodeRuns(s: seq<string>)
    ensures Runs(Decode(Runs(s), |s|)) == Runs(s)
    ensures Intervals(Decode(Runs(s), |s|)) == Intervals(s)
  {
    DecodeRuns(s);
    RunsFromNormalize(s, 0);
  }

  /** Over a day of slots, a run reaching the last slot is closed by the sentinel as `... - 24:00`. */
  lemma RunToEndOfDay(s: seq<string>)
    requires |s| == SLOTS && s[SLOTS - 1] == OUTAGE
    ensures |Runs(s)| > 0 && Runs(s)[|Runs(s)| - 1].stop == SLOTS
    ensures Intervals(s)[|Runs(s)| - 1] == FormatHalfHourTime(Runs(s)[|Runs(s)| - 1].start) + " - 24:00"
  {
    var r := Runs(s);
    LastRunEndsDay(s);
    var last := r[|r| - 1];
    assert Intervals(s)[|r| - 1] == IntervalText(last);
    EndOfDayInterval(last);
  }

  lemma LastRunEndsDay(s: seq<string>)
    requires |s| == SLOTS && s[SLOTS - 1] == OUTAGE
    ensures |Runs(s)| > 0 && Runs(s)[|Runs(s)| - 1].stop == SLOTS
  {
    var r := Runs(s);
    assert r == RunsFrom(s, 0);
    RunsFromShape(s, 0);
    RunsFromCover(s, 0);
    var k :| 0 <= k < |r| && r[k].start <= SLOTS - 1 < r[k].stop;
  }

  lemma EndOfDayInterval(r: Span)
    requires r.stop == SLOTS
    ensures IntervalText(r) == FormatHalfHourTime(r.start) + " - 24:00"
  {
  }

  /** What one entry of `times` does: the slot its key names, if any, and whether its value is an outage. */
  datatype Write = Write(slot: Option<nat>, outage: bool)

  function WriteOf(entry: (string, JsonValue)): Write {
    Write(TimeToHalfHourIndex(entry.0), IsOutageValue(entry.1))
  }

  function Writes(times: seq<(string, JsonValue)>): (ws: seq<Write>)
    ensures |ws| == |times|
  {
    MapSeq(WriteOf, times)
  }

  lemma WritesStep(times: seq<(string, JsonValue)>, n: nat)
    requires n < |times|
    ensures Writes(times[..n + 1]) == Writes(times[..n]) + [WriteOf(times[n])]
  {
  }

  /**
    The slots after applying the writes in order: a write naming a slot
    sets it to an outage or to power; one naming none is ignored.
  */
  function SlotsAfter(ws: seq<Write>): (slots: seq<string>)
    ensures |slots| == SLOTS
  {
    if ws == [] then seq(SLOTS, _ => POWER)
    else
      var prev := SlotsAfter(ws[..|ws| - 1]);
      var w := ws[|ws| - 1];
      if w.slot.Some? && w.slot.value < SLOTS then prev[w.slot.value := if w.outage then OUTAGE else POWER]
      else prev
  }

  lemma SlotsAfterStep(ws: seq<Write>, w: Write)
    ensures SlotsAfter(ws + [w]) ==
              if w.slot.Some? && w.slot.value < SLOTS then SlotsAfter(ws)[w.slot.value := if w.outage then OUTAGE else POWER]
              else SlotsAfter(ws)
  {
  }

  /** The last write naming slot `i`. */
  function LastWriter(ws: seq<Write>, i: nat): (r: Option<nat>)
    ensures r.Some? ==> r.value < |ws| && ws[r.value].slot == Some(i)
    ensures r.Some? ==> forall l :: r.value < l < |ws| ==> ws[l].slot != Some(i)
    ensures r.None? ==> forall l :: 0 <= l < |ws| ==> ws[l].slot != Some(i)
  {
    if ws == [] then None
    else if ws[|ws| - 1].slot == Some(i) then Some(|ws| - 1)
    else LastWriter(ws[..|ws| - 1], i)
  }

  /**
    Slot `i` is an outage exactly when the last write naming it is an
    outage; a slot no write names stays power.
  */
  lemma {:induction false} SlotsAfterDecided(ws: seq<Write>, i: nat)
    requires i < SLOTS
    ensures SlotsAfter(ws)[i] == OUTAGE <==> LastWriter(ws, i).Some? && ws[LastWriter(ws, i).value].outage
    ensures SlotsAfter(ws)[i] == OUTAGE || SlotsAfter(ws)[i] == POWER
  {
    if ws != [] {
      var prefix := ws[..|ws| - 1];
      SlotsAfterDecided(prefix, i);
      if LastWriter(ws, i) != Some(|ws| - 1) {
        assert LastWriter(ws, i) == LastWriter(prefix, i);
        if LastWriter(prefix, i).Some? {
          assert ws[LastWriter(prefix, i).value] == prefix[LastWriter(prefix, i).value];
        }
      }
    }
  }

  /**
    `parse_outage_intervals_from_times`: 48 power slots, each entry of
    `times` applied in order (the dictionary's insertion order), then the
    intervals of the result.
  */
  method ParseOutageIntervalsFromTimes(times: seq<(string, JsonValue)>) returns (intervals: seq<string>)
    ensures intervals == Intervals(SlotsAfter(Writes(times)))
  {
    var halfHours := new string[SLOTS](_ => POWER);
    assert Writes(times[..0]) == [];
    assert halfHours[..] == SlotsAfter([]);
    var n := 0;
    assert halfHours[..] == SlotsAfter(Writes(times[..n]));
    while n < |times|
      invariant 0 <= n <= |times|
      invariant halfHours[..] == SlotsAfter(Writes(times[..n]))
    {
      var entry := times[n];
      var idx := TimeToHalfHourIndex(entry.0);
      var outage := IsOutageValue(entry.1);
      ghost var before := halfHours[..];
      if idx.Some? {
        halfHours[idx.value] := if outage then OUTAGE else POWER;
        assert halfHours[..] == before[idx.value := if outage then OUTAGE else POWER];
      }
      WritesStep(times, n);
      assert Write(idx, outage) == WriteOf(times[n]);
      SlotsAfterStep(Writes(times[..n]), Write(idx, outage));
      assert halfHours[..] == SlotsAfter(Writes(times[..n]) + [Write(idx, outage)]);
      n := n + 1;
      assert halfHours[..] == SlotsAfter(Writes(times[..n]));
    }
    assert times[..n] == times;
    intervals := BuildIntervalsFromHalfHours(halfHours[..]);
  }

  /** With no usable entry every slot is power and no interval is reported. */
  lemma NoTimesNoIntervals()
    ensures Intervals(SlotsAfter([])) == []
  {
    var s := SlotsAfter([]);
    forall j | 0 <= j <= SLOTS ensures RunsFrom(s, j) == [] {
      NoRunsFrom(s, j);
    }
  }

  lemma {:induction false} NoRunsFrom(s: seq<string>, j: nat)
    requires j <= |s| && forall q :: 0 <= q < |s| ==> s[q] != OUTAGE
    ensures RunsFrom(s, j) == []
    decreases |s| - j
  {
    if j < |s| {
      NoRunsFrom(s, j + 1);
    }
  }
}
