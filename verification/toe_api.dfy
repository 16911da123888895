/**
  The API parser: each hour's status from the two half-hour values the
  outage API reports for it, and the fold that files the groups of every
  API member under its day.
*/
module ToeApi {
  import opened Results
  import opened Text
  import opened PyInt
  import opened Statuses
  import opened ScheduleStore

  /** `str(times.get(key, "0"))`: the value's text, `"0"` when the key is missing. */
  function Get(times: map<string, JsonValue>, key: string): string {
    if key in times then PyStr(times[key]) else "0"
  }

  /** The key of a half-hour slot: `f"{h:02d}:00"` or `f"{h:02d}:30"`. */
  function SlotKey(hour: nat, secondHalf: bool): string {
    Pad2(hour) + (if secondHalf then ":30" else ":00")
  }

  /**
    The decision table of `process_times`, tried in order: both certain,
    both off, both possible, a possible first half, a possible second half,
    a certain first half only, a certain second half only, and power on for
    anything else.
  */
  function HourStatus(v1: string, v2: string): Status {
    if v1 == "1" && v2 == "1" then No
    else if v1 == "0" && v2 == "0" then Yes
    else if v1 == "10" && v2 == "10" then Maybe
    else if v1 == "10" then MFirst
    else if v2 == "10" then MSecond
    else if v1 == "1" && v2 == "0" then First
    else if v1 == "0" && v2 == "1" then Second
    else Yes
  }

  /** The three codes the API uses: power on, a certain outage, a possible one. */
  predicate IsCode(v: string) {
    v == "0" || v == "1" || v == "10"
  }

  /**
    What two known codes say about the hour: a possible outage in either
    half wins, and then only the possible halves are reported; otherwise the
    certain halves are.
  */
  function PairReading(v1: string, v2: string): (m: Reading)
    ensures Consistent(m)
  {
    if v1 == "10" || v2 == "10" then Reading(Possible, v1 == "10", v2 == "10")
    else Reading(if v1 == "1" || v2 == "1" then Certain else PowerOn, v1 == "1", v2 == "1")
  }

  /** On known codes the decision table gives the status that says exactly `PairReading`. */
  lemma HourStatusOfCodes(v1: string, v2: string)
    requires IsCode(v1) && IsCode(v2)
    ensures HourStatus(v1, v2) == StatusOf(PairReading(v1, v2))
    ensures ReadingOf(HourStatus(v1, v2)) == PairReading(v1, v2)
  {
  }

  /**
    With an unknown value a possible outage in the other half is still
    reported, but a certain one is not: the hour falls back to power on.
  */
  lemma HourStatusOfOther(v1: string, v2: string)
    requires !IsCode(v1) || !IsCode(v2)
    ensures HourStatus(v1, v2) == if v1 == "10" then MFirst else if v2 == "10" then MSecond else Yes
  {
  }

  /** A possible outage beats a certain one in the other half. */
  lemma PossibleBeatsCertain()
    ensures HourStatus("10", "1") == MFirst && HourStatus("1", "10") == MSecond
  {
  }

  /** Hour `h` (1 to 24) from the values at `(h-1):00` and `(h-1):30`. */
  function HourAt(times: map<string, JsonValue>, h: nat): Status
    requires h >= 1
  {
    HourStatus(Get(times, SlotKey(h - 1, false)), Get(times, SlotKey(h - 1, true)))
  }

  /** The statuses of hours 1 to `n`, in order. */
  function HourStatuses(times: map<string, JsonValue>, n: nat): (st: seq<Status>)
    ensures |st| == n
  {
    if n == 0 then [] else HourStatuses(times, n - 1) + [HourAt(times, n)]
  }

  lemma {:induction false} HourStatusesAt(times: map<string, JsonValue>, n: nat)
    ensures forall k :: 0 <= k < n ==> HourStatuses(times, n)[k] == HourAt(times, k + 1)
  {
    if n > 0 {
      HourStatusesAt(times, n - 1);
    }
  }

  /** The hours map `process_times` returns. */
  function HoursOf(times: map<string, JsonValue>): Hours {
    Numbered(HourStatuses(times, HOUR_CELLS))
  }

  /**
    `process_times`: one entry per hour, keyed `"1"` to `"24"`, each the
    decision table applied to the hour's two half-hour values.
  */
  method ProcessTimes(times: map<string, JsonValue>) returns (hoursMap: Hours)
    ensures hoursMap == HoursOf(times)
  {
    hoursMap := map[];
    ghost var st: seq<Status> := [];
    for h := 1 to HOUR_CELLS + 1
      invariant st == HourStatuses(times, h - 1)
      invariant hoursMap == Numbered(st)
    {
      var t1 := SlotKey(h - 1, false);
      var t2 := SlotKey(h - 1, true);
      var v1 := Get(times, t1);
      var v2 := Get(times, t2);
      var status := HourStatus(v1, v2);
      NumberedStep(st, status);
      hoursMap := hoursMap[NatToString(h) := status];
      st := st + [status];
    }
  }

  /** The keys are exactly `"1"` to `"24"`, hour `h` holding the table applied to its two slots. */
  lemma HoursOfKeys(times: map<string, JsonValue>)
    ensures forall h :: 1 <= h <= HOUR_CELLS ==>
              NatToString(h) in HoursOf(times) && HoursOf(times)[NatToString(h)] == HourAt(times, h)
    ensures forall key :: key in HoursOf(times) ==> IsHourKey(key, HOUR_CELLS)
  {
    HourStatusesAt(times, HOUR_CELLS);
    NumberedHas(HourStatuses(times, HOUR_CELLS));
    NumberedOnly(HourStatuses(times, HOUR_CELLS));
  }

  /** Without any value every hour is power on. */
  lemma EmptyTimesAllYes()
    ensures forall key :: key in HoursOf(map[]) ==> HoursOf(map[])[key] == Yes
  {
    var st := HourStatuses(map[], HOUR_CELLS);
    HourStatusesAt(map[], HOUR_CELLS);
    NumberedOnly(st);
    NumberedHas(st);
    forall key | key in HoursOf(map[]) ensures HoursOf(map[])[key] == Yes {
      var k :| 1 <= k <= HOUR_CELLS && key == NatToString(k);
      assert HourAt(map[], k) == HourStatus("0", "0");
    }
  }

  /** Only the text of the values matters: two inputs that read alike give the same hours. */
  lemma {:induction false} SameTextSameStatuses(t1: map<string, JsonValue>, t2: map<string, JsonValue>, n: nat)
    requires forall key :: Get(t1, key) == Get(t2, key)
    ensures HourStatuses(t1, n) == HourStatuses(t2, n)
  {
    if n > 0 {
      SameTextSameStatuses(t1, t2, n - 1);
      assert HourAt(t1, n) == HourAt(t2, n);
    }
  }

  /** The integer `n` and the string of its digits give the same hours. */
  lemma IntAndStringAlike(times: map<string, JsonValue>, key: string, n: nat)
    ensures HoursOf(times[key := Int(n)]) == HoursOf(times[key := Str(NatToString(n))])
  {
    var t1, t2 := times[key := Int(n)], times[key := Str(NatToString(n))];
    forall k ensures Get(t1, k) == Get(t2, k) {
      if k == key {
        assert PyStr(Int(n)) == NatToString(n);
      }
    }
    SameTextSameStatuses(t1, t2, HOUR_CELLS);
  }

  /** One entry of a member's `dataJson`: the raw group name and its `times` object. */
  datatype GroupEntry = GroupEntry(name: string, times: map<string, JsonValue>)

  /** A member of the API response: its `dateGraph` (empty when missing) and its `dataJson` entries, in order. */
  datatype Member = Member(dateGraph: string, dataJson: seq<GroupEntry>)

  /** `f"GPV{name.split('#')[0]}"`. */
  function GroupKey(name: string): (key: string)
    ensures |key| >= 3 && key[..3] == "GPV" && '#' !in key[3..]
  {
    "GPV" + Before(name, '#')
  }

  /** The group keys set by the entries, in order, on top of `bucket`. */
  function FileGroups(bucket: map<string, Hours>, entries: seq<GroupEntry>): map<string, Hours> {
    if entries == [] then bucket
    else
      var last := entries[|entries| - 1];
      FileGroups(bucket, entries[..|entries| - 1])[GroupKey(last.name) := HoursOf(last.times)]
  }

  lemma FileGroupsStep(bucket: map<string, Hours>, entries: seq<GroupEntry>, i: nat)
    requires i < |entries|
    ensures FileGroups(bucket, entries[..i + 1])
         == FileGroups(bucket, entries[..i])[GroupKey(entries[i].name) := HoursOf(entries[i].times)]
  {
    assert entries[..i + 1][..i] == entries[..i];
  }

  /** The last entry whose group key is `key`. */
  function LastEntry(entries: seq<GroupEntry>, key: string): (r: Option<nat>)
    ensures r.Some? ==> r.value < |entries| && GroupKey(entries[r.value].name) == key
    ensures r.Some? ==> forall l :: r.value < l < |entries| ==> GroupKey(entries[l].name) != key
    ensures r.None? ==> forall l :: 0 <= l < |entries| ==> GroupKey(entries[l].name) != key
  {
    if entries == [] then None
    else if GroupKey(entries[|entries| - 1].name) == key then Some(|entries| - 1)
    else LastEntry(entries[..|entries| - 1], key)
  }

  /**
    A group key is present after the entries exactly when it was before or
    some entry names it; the last entry naming it decides its hours, and a
    key no entry names keeps its old hours.
  */
  lemma {:induction false} FileGroupsLastWins(bucket: map<string, Hours>, entries: seq<GroupEntry>, key: string)
    ensures key in FileGroups(bucket, entries) <==> key in bucket || LastEntry(entries, key).Some?
    ensures LastEntry(entries, key).Some? ==>
              FileGroups(bucket, entries)[key] == HoursOf(entries[LastEntry(entries, key).value].times)
    ensures LastEntry(entries, key).None? && key in bucket ==> FileGroups(bucket, entries)[key] == bucket[key]
  {
    if entries != [] {
      var init := entries[..|entries| - 1];
      FileGroupsLastWins(bucket, init, key);
      if LastEntry(entries, key) != Some(|entries| - 1) {
        assert LastEntry(entries, key) == LastEntry(init, key);
        if LastEntry(init, key).Some? {
          assert entries[LastEntry(init, key).value] == init[LastEntry(init, key).value];
        }
      }
    }
  }

  /** The day of a member: `None` when its date part is empty and it is skipped, else the day key of the date. */
  function DayOf(m: Member, dayKeyOf: string -> Option<string>): Option<string> {
    var rawDate := Before(m.dateGraph, 'T');
    if rawDate == [] then None else dayKeyOf(rawDate)
  }

  /**
    Filing one member: skipped when its date part is empty, failing (`None`)
    when the date does not convert to a day key, and otherwise its groups
    written into its day's bucket, created empty when missing.
  */
  function FileMember(data: map<string, map<string, Hours>>, m: Member, dayKeyOf: string -> Option<string>)
    : (r: Option<map<string, map<string, Hours>>>)
    ensures r.None? <==> Before(m.dateGraph, 'T') != [] && dayKeyOf(Before(m.dateGraph, 'T')).None?
    ensures Before(m.dateGraph, 'T') == [] ==> r == Some(data)
    ensures r.Some? ==> r.value.Keys == data.Keys + (if DayOf(m, dayKeyOf).Some? then {DayOf(m, dayKeyOf).value} else {})
    ensures r.Some? ==> forall k :: k in data && DayOf(m, dayKeyOf) != Some(k) ==> r.value[k] == data[k]
    ensures r.Some? && DayOf(m, dayKeyOf).Some? ==>
              var ts := DayOf(m, dayKeyOf).value;
              r.value[ts] == FileGroups(if ts in data then data[ts] else map[], m.dataJson)
  {
    var rawDate := Before(m.dateGraph, 'T');
    if rawDate == [] then Some(data)
    else
      match dayKeyOf(rawDate)
      case None => None
      case Some(ts) =>
        var bucket := if ts in data then data[ts] else map[];
        Some(data[ts := FileGroups(bucket, m.dataJson)])
  }

  /** Filing the members in order; a member whose date fails to convert ends the response there. */
  function FileMembers(data: map<string, map<string, Hours>>, members: seq<Member>, dayKeyOf: string -> Option<string>)
    : map<string, map<string, Hours>>
    decreases |members|
  {
    if members == [] then data
    else
      match FileMember(data, members[0], dayKeyOf)
      case None => data
      case Some(next) => FileMembers(next, members[1..], dayKeyOf)
  }

  /** A day bucket, once created, is never dropped. */
  lemma {:induction false} FileMembersKeepsDays(data: map<string, map<string, Hours>>, members: seq<Member>,
                                                dayKeyOf: string -> Option<string>)
    ensures data.Keys <= FileMembers(data, members, dayKeyOf).Keys
    decreases |members|
  {
    if members != [] {
      var r := FileMember(data, members[0], dayKeyOf);
      if r.Some? {
        FileMembersKeepsDays(r.value, members[1..], dayKeyOf);
      }
    }
  }

  /** Of two members for the same day, the later one's hours stand for every group it names. */
  lemma LaterMemberWins(data: map<string, map<string, Hours>>, m1: Member, m2: Member,
                        dayKeyOf: string -> Option<string>, ts: string, key: string)
    requires DayOf(m1, dayKeyOf) == Some(ts) && DayOf(m2, dayKeyOf) == Some(ts)
    requires LastEntry(m2.dataJson, key).Some?
    ensures ts in FileMembers(data, [m1, m2], dayKeyOf)
    ensures key in FileMembers(data, [m1, m2], dayKeyOf)[ts]
    ensures FileMembers(data, [m1, m2], dayKeyOf)[ts][key] == HoursOf(m2.dataJson[LastEntry(m2.dataJson, key).value].times)
  {
    var d1 := FileMember(data, m1, dayKeyOf).value;
    var d2 := FileMember(d1, m2, dayKeyOf).value;
    assert [m1, m2][1..] == [m2];
    assert FileMembers(d1, [m2], dayKeyOf) == FileMembers(d2, [], dayKeyOf);
    FileGroupsLastWins(d1[ts], m2.dataJson, key);
  }

  /** The responses, one per queried address, each filed in turn into one `data_structure`. */
  function FileResponses(data: map<string, map<string, Hours>>, responses: seq<seq<Member>>,
                         dayKeyOf: string -> Option<string>): map<string, map<string, Hours>>
    decreases |responses|
  {
    if responses == [] then data
    else FileResponses(FileMembers(data, responses[0], dayKeyOf), responses[1..], dayKeyOf)
  }

  /** A failing member ends only its own response: the next response is still filed. */
  lemma {:induction false} FileResponsesKeepsDays(data: map<string, map<string, Hours>>, responses: seq<seq<Member>>,
                                                  dayKeyOf: string -> Option<string>)
    ensures data.Keys <= FileResponses(data, responses, dayKeyOf).Keys
    decreases |responses|
  {
    if responses != [] {
      FileMembersKeepsDays(data, responses[0], dayKeyOf);
      FileResponsesKeepsDays(FileMembers(data, responses[0], dayKeyOf), responses[1..], dayKeyOf);
    }
  }

  /** The `dataJson` loop: each entry's hours filed under its group key in the day's bucket. */
  method AddGroups(bucket: map<string, Hours>, entries: seq<GroupEntry>) returns (filled: map<string, Hours>)
    ensures filled == FileGroups(bucket, entries)
  {
    filled := bucket;
    for i := 0 to |entries|
      invariant filled == FileGroups(bucket, entries[..i])
    {
      var entry := entries[i];
      var fullName := "GPV" + Before(entry.name, '#');
      var processedTimes := ProcessTimes(entry.times);
      FileGroupsStep(bucket, entries, i);
      filled := filled[fullName := processedTimes];
    }
    assert entries[..|entries|] == entries;
  }

  /** The body of the member loop: `None` when the member's date does not convert. */
  method AddMember(data: map<string, map<string, Hours>>, member: Member, dayKeyOf: string -> Option<string>)
    returns (next: Option<map<string, map<string, Hours>>>)
    ensures next == FileMember(data, member, dayKeyOf)
  {
    var rawDate := Before(member.dateGraph, 'T');
    if rawDate == [] {
      return Some(data);
    }
    var tsKey := dayKeyOf(rawDate);
    if tsKey.None? {
      return None;
    }
    var ts := tsKey.value;
    var dataStructure := data;
    if ts !in dataStructure {
      dataStructure := dataStructure[ts := map[]];
    }
    assert dataStructure[ts] == if ts in data then data[ts] else map[];
    var filled := AddGroups(dataStructure[ts], member.dataJson);
    dataStructure := dataStructure[ts := filled];
    assert dataStructure == data[ts := filled];
    return Some(dataStructure);
  }

  /**
    The member loop of one response: a member with an empty date part is
    skipped, and one whose date does not convert ends the response.
  */
  method AddMembers(data: map<string, map<string, Hours>>, members: seq<Member>, dayKeyOf: string -> Option<string>)
    returns (dataStructure: map<string, map<string, Hours>>)
    ensures dataStructure == FileMembers(data, members, dayKeyOf)
  {
    dataStructure := data;
    var i := 0;
    while i < |members|
      invariant 0 <= i <= |members|
      invariant FileMembers(data, members, dayKeyOf) == FileMembers(dataStructure, members[i..], dayKeyOf)
    {
      assert members[i..][1..] == members[i + 1..];
      var next := AddMember(dataStructure, members[i], dayKeyOf);
      if next.None? {
        return;
      }
      dataStructure := next.value;
      i := i + 1;
    }
  }

  /**
    `fetch_all_groups` with the requests taken out: the members of each
    response, filed in order into one initially empty `data_structure`.
  */
  method FetchAllGroups(responses: seq<seq<Member>>, dayKeyOf: string -> Option<string>)
    returns (dataStructure: map<string, map<string, Hours>>)
    ensures dataStructure == FileResponses(map[], responses, dayKeyOf)
  {
    dataStructure := map[];
    var i := 0;
    while i < |responses|
      invariant 0 <= i <= |responses|
      invariant FileResponses(map[], responses, dayKeyOf) == FileResponses(dataStructure, responses[i..], dayKeyOf)
    {
      assert responses[i..][1..] == responses[i + 1..];
      dataStructure := AddMembers(dataStructure, responses[i], dayKeyOf);
      i := i + 1;
    }
  }
}
