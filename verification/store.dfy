/**
  The part of the recognizer's `run` that turns grouped table rows into the
  stored schedule: the last twelve rows are the twelve queues, the last 24
  cells of each row are its hours, and the groups found are filed under the
  day key of the schedule date, after which every day before today is purged.
*/
module ScheduleStore {
  import opened Results
  import opened Text
  import opened Statuses
  import opened CellClassifier
  import opened Grid
  import opened HeaderDate

  /** Hour key ("1".."24") to status. */
  type Hours = map<string, Status>

  /** Queue key ("GPV1.1".."GPV6.2") to its hours. */
  type Groups = map<string, Hours>

  /** The number of queues: the last twelve table rows. */
  const QUEUE_COUNT := 12

  /** Hour cells taken from the end of each row. */
  const HOUR_CELLS := 24

  /** The name of queue `i` (0-based): queue `i / 2 + 1`, half `i % 2 + 1`. */
  function QueueName(i: nat): (name: string)
    requires i < QUEUE_COUNT
    ensures |name| == 3 && name[1] == '.'
  {
    [DigitChar(i / 2 + 1), '.', DigitChar(i % 2 + 1)]
  }

  /** The queue names in row order are "1.1", "1.2", "2.1", ..., "6.2". */
  lemma QueueNamesListed()
    ensures seq(QUEUE_COUNT, i requires 0 <= i < QUEUE_COUNT => QueueName(i))
         == ["1.1", "1.2", "2.1", "2.2", "3.1", "3.2", "4.1", "4.2", "5.1", "5.2", "6.1", "6.2"]
  {
  }

  function QueueKey(i: nat): string
    requires i < QUEUE_COUNT
  {
    "GPV" + QueueName(i)
  }

  lemma QueueKeysDistinct(i: nat, j: nat)
    requires i < QUEUE_COUNT && j < QUEUE_COUNT
    ensures QueueKey(i) == QueueKey(j) <==> i == j
  {
    if QueueKey(i) == QueueKey(j) {
      assert QueueKey(i)[3] == QueueKey(j)[3] && QueueKey(i)[5] == QueueKey(j)[5];
      assert DigitValue(DigitChar(i / 2 + 1)) == DigitValue(DigitChar(j / 2 + 1));
      assert DigitValue(DigitChar(i % 2 + 1)) == DigitValue(DigitChar(j % 2 + 1));
    }
  }

  /** Python's `s[-n:]` for `n > 0`: the last `n` elements, or all of them. */
  function LastN<T>(s: seq<T>, n: nat): (r: seq<T>)
    requires n > 0
    ensures |r| == Min(|s|, n) && r == s[|s| - |r|..]
  {
    if |s| <= n then s else s[|s| - n..]
  }

  /** The cell image `original[y:y+h, x:x+w]` and its status. */
  function CellStatus(img: Image, cell: Candidate): Status
    requires Rectangular(img)
  {
    var b := cell.box;
    ClassifyCell(CellImage(img, b.y, b.y + b.h, b.x, b.x + b.w))
  }

  /**
    `original[top:bottom, left:right]` cut row by row; the same image as
    `Crop` (CellImageIsCrop), written recursively so that the size
    arithmetic of the classifier stays out of the proofs about whole rows.
  */
  function CellImage(img: Image, top: nat, bottom: nat, left: nat, right: nat): (c: Image)
    requires Rectangular(img)
    ensures Rectangular(c)
    ensures forall i :: 0 <= i < |c| ==> |c[i]| == SliceLength(Width(img), left, right)
    decreases bottom - top
  {
    if bottom <= top || |img| <= top then []
    else [Slice(img[top], left, right)] + CellImage(img, top + 1, bottom, left, right)
  }

  /** Row `i` of a crop is row `top + i` of the image, sliced. */
  lemma CropRow(img: Image, top: nat, bottom: nat, left: nat, right: nat, i: nat)
    requires Rectangular(img) && i < |Crop(img, top, bottom, left, right)|
    ensures top + i < |img| && Crop(img, top, bottom, left, right)[i] == Slice(img[top + i], left, right)
  {
    var rows := Slice(img, top, bottom);
    assert rows[i] == img[top + i];
  }

  lemma {:induction false} CellImageIsCrop(img: Image, top: nat, bottom: nat, left: nat, right: nat)
    requires Rectangular(img)
    ensures CellImage(img, top, bottom, left, right) == Crop(img, top, bottom, left, right)
    decreases bottom - top
  {
    var c := CellImage(img, top, bottom, left, right);
    var d := Crop(img, top, bottom, left, right);
    if bottom <= top || |img| <= top {
      assert |d| == 0;
    } else {
      CellImageIsCrop(img, top + 1, bottom, left, right);
      var next := Crop(img, top + 1, bottom, left, right);
      assert |d| == |next| + 1;
      forall i | 0 <= i < |d| ensures c[i] == d[i] {
        CropRow(img, top, bottom, left, right, i);
        if i > 0 {
          CropRow(img, top + 1, bottom, left, right, i - 1);
        }
      }
    }
  }

  /** The statuses of a row's cells, in order. */
  function CellStatuses(img: Image, cells: seq<Candidate>): (st: seq<Status>)
    requires Rectangular(img)
    ensures |st| == |cells|
    ensures forall k :: 0 <= k < |cells| ==> st[k] == CellStatus(img, cells[k])
  {
    MapSeq(c requires Rectangular(img) => CellStatus(img, c), cells)
  }

  lemma CellStatusesStep(img: Image, cells: seq<Candidate>, j: nat)
    requires Rectangular(img) && j < |cells|
    ensures CellStatuses(img, cells[..j + 1]) == CellStatuses(img, cells[..j]) + [CellStatus(img, cells[j])]
  {
    MapSeqStep(c requires Rectangular(img) => CellStatus(img, c), cells, j);
  }

  /** Statuses filed by position: the `k`-th (0-based) under `str(k + 1)`. */
  function Numbered(st: seq<Status>): Hours {
    if st == [] then map[] else Numbered(st[..|st| - 1])[NatToString(|st|) := st[|st| - 1]]
  }

  lemma NumberedStep(st: seq<Status>, s: Status)
    ensures Numbered(st + [s]) == Numbered(st)[NatToString(|st| + 1) := s]
  {
    assert (st + [s])[..|st|] == st;
  }

  /** Every position has its hour key, holding its status. */
  lemma {:induction false} NumberedHas(st: seq<Status>)
    ensures forall k :: 1 <= k <= |st| ==> NatToString(k) in Numbered(st) && Numbered(st)[NatToString(k)] == st[k - 1]
  {
    if st != [] {
      var n := |st|;
      NumberedHas(st[..n - 1]);
      forall k | 1 <= k < n ensures NatToString(k) != NatToString(n) {
        NatToStringInjective(k, n);
      }
    }
  }

  /** `key` is one of "1" to `str(n)`. */
  ghost predicate IsHourKey(key: string, n: nat) {
    exists k :: 1 <= k <= n && key == NatToString(k)
  }

  /** No other key is present: the hour keys are exactly "1" to the number of statuses. */
  lemma {:induction false} NumberedOnly(st: seq<Status>)
    ensures forall key :: key in Numbered(st) ==> IsHourKey(key, |st|)
  {
    if st != [] {
      var n := |st|;
      var prev := Numbered(st[..n - 1]);
      NumberedOnly(st[..n - 1]);
      forall key | key in Numbered(st) ensures IsHourKey(key, n) {
        if key != NatToString(n) {
          assert key in prev;
          var k :| 1 <= k <= n - 1 && key == NatToString(k);
        }
      }
    }
  }

  /** The statuses of the last 24 cells of each row. */
  function StatusRows(img: Image, rows: seq<seq<Candidate>>): (grid: seq<seq<Status>>)
    requires Rectangular(img)
    ensures |grid| == |rows|
  {
    if rows == [] then [] else StatusRows(img, rows[..|rows| - 1]) + [CellStatuses(img, LastN(rows[|rows| - 1], HOUR_CELLS))]
  }

  lemma StatusRowsStep(img: Image, rows: seq<seq<Candidate>>, i: nat)
    requires Rectangular(img) && i < |rows|
    ensures StatusRows(img, rows[..i + 1]) == StatusRows(img, rows[..i]) + [CellStatuses(img, LastN(rows[i], HOUR_CELLS))]
  {
    assert rows[..i + 1][..i] == rows[..i];
  }

  lemma {:induction false} StatusRowsAt(img: Image, rows: seq<seq<Candidate>>)
    requires Rectangular(img)
    ensures forall i :: 0 <= i < |rows| ==> StatusRows(img, rows)[i] == CellStatuses(img, LastN(rows[i], HOUR_CELLS))
  {
    if rows != [] {
      var n := |rows|;
      var prefix := rows[..n - 1];
      StatusRowsAt(img, prefix);
      forall i | 0 <= i < n ensures StatusRows(img, rows)[i] == CellStatuses(img, LastN(rows[i], HOUR_CELLS)) {
        if i < n - 1 {
          assert prefix[i] == rows[i];
        }
      }
    }
  }

  /** A grid of statuses filed as queues: row `i` under queue `i`, its statuses numbered. */
  function GroupsOf(grid: seq<seq<Status>>): Groups
    requires |grid| <= QUEUE_COUNT
  {
    if grid == [] then map[] else GroupsOf(grid[..|grid| - 1])[QueueKey(|grid| - 1) := Numbered(grid[|grid| - 1])]
  }

  lemma GroupsOfStep(grid: seq<seq<Status>>, st: seq<Status>)
    requires |grid| < QUEUE_COUNT
    ensures GroupsOf(grid + [st]) == GroupsOf(grid)[QueueKey(|grid|) := Numbered(st)]
  {
    assert (grid + [st])[..|grid|] == grid;
  }

  /** `key` is the key of one of the first `n` queues. */
  ghost predicate IsQueueKey(key: string, n: nat) {
    exists i :: 0 <= i < n && i < QUEUE_COUNT && key == QueueKey(i)
  }

  /** Each of the first `|grid|` queues holds its row of statuses, numbered. */
  lemma {:induction false} GroupsOfHas(grid: seq<seq<Status>>)
    requires |grid| <= QUEUE_COUNT
    ensures forall i :: 0 <= i < |grid| ==> QueueKey(i) in GroupsOf(grid) && GroupsOf(grid)[QueueKey(i)] == Numbered(grid[i])
  {
    if grid != [] {
      var n := |grid|;
      GroupsOfHas(grid[..n - 1]);
      forall i | 0 <= i < n - 1 ensures QueueKey(i) != QueueKey(n - 1) {
        QueueKeysDistinct(i, n - 1);
      }
    }
  }

  /** No other key is present: the queue keys are exactly the first `|grid|` queues. */
  lemma {:induction false} GroupsOfOnly(grid: seq<seq<Status>>)
    requires |grid| <= QUEUE_COUNT
    ensures forall key :: key in GroupsOf(grid) ==> IsQueueKey(key, |grid|)
  {
    if grid != [] {
      var n := |grid|;
      var prev := GroupsOf(grid[..n - 1]);
      GroupsOfOnly(grid[..n - 1]);
      forall key | key in GroupsOf(grid) ensures IsQueueKey(key, n) {
        if key != QueueKey(n - 1) {
          assert key in prev;
          var i :| 0 <= i < n - 1 && i < QUEUE_COUNT && key == QueueKey(i);
        }
      }
    }
  }

  /** The groups of the data rows. */
  function QueueGroups(img: Image, rows: seq<seq<Candidate>>): Groups
    requires Rectangular(img) && |rows| <= QUEUE_COUNT
  {
    GroupsOf(StatusRows(img, rows))
  }

  lemma BuildGroupsStep(img: Image, rows: seq<seq<Candidate>>, i: nat)
    requires Rectangular(img) && i < |rows| <= QUEUE_COUNT
    ensures GroupsOf(StatusRows(img, rows[..i + 1]))
         == GroupsOf(StatusRows(img, rows[..i]))[QueueKey(i) := Numbered(CellStatuses(img, LastN(rows[i], HOUR_CELLS)))]
  {
    StatusRowsStep(img, rows, i);
    GroupsOfStep(StatusRows(img, rows[..i]), CellStatuses(img, LastN(rows[i], HOUR_CELLS)));
  }

  /**
    The hours of one data row: each of its time cells is cut out of the
    image as `original[y:y+h, x:x+w]`, classified, and filed under its
    1-based position.
  */
  method FillHours(img: Image, timeCells: seq<Candidate>) returns (hours: Hours)
    requires Rectangular(img)
    ensures hours == Numbered(CellStatuses(img, timeCells))
  {
    hours := map[];
    ghost var statuses: seq<Status> := [];
    assert timeCells[..0] == [];
    var j := 0;
    while j < |timeCells|
      invariant 0 <= j <= |timeCells|
      invariant statuses == CellStatuses(img, timeCells[..j])
      invariant hours == Numbered(statuses)
    {
      var status := CellStatus(img, timeCells[j]);
      hours := hours[NatToString(j + 1) := status];
      CellStatusesStep(img, timeCells, j);
      NumberedStep(statuses, status);
      statuses := statuses + [status];
      j := j + 1;
    }
    assert timeCells[..j] == timeCells;
  }

  /**
    The group builder: the last twelve rows (all of them when fewer) become
    the queues in list order, and each queue holds the statuses of the last
    24 cells of its row (all of them when fewer) under "1", "2", ...
  */
  method BuildGroups(img: Image, rows: seq<seq<Candidate>>) returns (groups: Groups)
    requires Rectangular(img)
    ensures groups == QueueGroups(img, LastN(rows, QUEUE_COUNT))
  {
    var dataRows := LastN(rows, QUEUE_COUNT);
    ghost var grid: seq<seq<Status>> := [];
    groups := map[];
    var i := 0;
    while i < |dataRows| && i < QUEUE_COUNT
      invariant 0 <= i <= |dataRows|
      invariant grid == StatusRows(img, dataRows[..i])
      invariant groups == GroupsOf(grid)
    {
      var key := "GPV" + QueueName(i);
      var timeCells := LastN(dataRows[i], HOUR_CELLS);
      var hours := FillHours(img, timeCells);
      groups := groups[key := hours];
      BuildGroupsStep(img, dataRows, i);
      grid := StatusRows(img, dataRows[..i + 1]);
      i := i + 1;
    }
    assert dataRows[..i] == dataRows;
  }

  /** The builder stores at most twelve queues: one per data row, keyed by the first queue names in order. */
  lemma BuiltQueues(img: Image, rows: seq<seq<Candidate>>)
    requires Rectangular(img)
    ensures forall key :: key in QueueGroups(img, LastN(rows, QUEUE_COUNT)) ==> IsQueueKey(key, Min(|rows|, QUEUE_COUNT))
    ensures forall i :: 0 <= i < Min(|rows|, QUEUE_COUNT) ==> QueueKey(i) in QueueGroups(img, LastN(rows, QUEUE_COUNT))
  {
    GroupsOfOnly(StatusRows(img, LastN(rows, QUEUE_COUNT)));
    GroupsOfHas(StatusRows(img, LastN(rows, QUEUE_COUNT)));
  }

  /**
    Queue `i` holds exactly the hour keys "1" to `min(24, cells)`, the hour
    `k` holding the status of the `k`-th of the row's last 24 cells.
  */
  lemma BuiltHours(img: Image, rows: seq<seq<Candidate>>, i: nat)
    requires Rectangular(img) && i < Min(|rows|, QUEUE_COUNT)
    ensures var row := LastN(rows, QUEUE_COUNT)[i];
            var cells := LastN(row, HOUR_CELLS);
            var groups := QueueGroups(img, LastN(rows, QUEUE_COUNT));
            && QueueKey(i) in groups
            && var hours := groups[QueueKey(i)];
            && (forall key :: key in hours ==> IsHourKey(key, Min(|row|, HOUR_CELLS)))
            && (forall k :: 1 <= k <= |cells| ==> NatToString(k) in hours && hours[NatToString(k)] == CellStatus(img, cells[k - 1]))
  {
    var dataRows := LastN(rows, QUEUE_COUNT);
    GroupsOfHas(StatusRows(img, dataRows));
    StatusRowsAt(img, dataRows);
    var cells := LastN(dataRows[i], HOUR_CELLS);
    NumberedHas(CellStatuses(img, cells));
    NumberedOnly(CellStatuses(img, cells));
  }

  /**
    The stored day buckets after a merge: the new groups put under `dayKey`,
    then every key below `todayKey` deleted, the new one included.
  */
  function Merged(data: map<int, Groups>, dayKey: int, groups: Groups, todayKey: int): (r: map<int, Groups>)
    ensures forall k :: k in r ==> k >= todayKey
    ensures dayKey >= todayKey ==> dayKey in r && r[dayKey] == groups
    ensures forall k :: k in data && k >= todayKey && k != dayKey ==> k in r && r[k] == data[k]
    ensures forall k :: k in r ==> k == dayKey || k in data
  {
    var inserted := data[dayKey := groups];
    map k | k in inserted && k >= todayKey :: inserted[k]
  }

  /** Deleting the keys below today from the store with the new groups in it is the merge. */
  lemma PurgeIsMerged(data: map<int, Groups>, dayKey: int, groups: Groups, todayKey: int)
    ensures var inserted := data[dayKey := groups];
            inserted - (set k | k in inserted && k < todayKey) == Merged(data, dayKey, groups, todayKey)
  {
    var inserted := data[dayKey := groups];
    var purged := inserted - (set k | k in inserted && k < todayKey);
    assert purged.Keys == Merged(data, dayKey, groups, todayKey).Keys;
  }

  /** Merging the same groups again changes nothing. */
  lemma MergeIdempotent(data: map<int, Groups>, dayKey: int, groups: Groups, todayKey: int)
    ensures Merged(Merged(data, dayKey, groups, todayKey), dayKey, groups, todayKey) == Merged(data, dayKey, groups, todayKey)
  {
    var once := Merged(data, dayKey, groups, todayKey);
    var twice := Merged(once, dayKey, groups, todayKey);
    assert twice.Keys == once.Keys;
  }

  /** A schedule dated before today is dropped at once; the store then holds exactly the surviving days. */
  lemma PastScheduleDropped(data: map<int, Groups>, dayKey: int, groups: Groups, todayKey: int)
    requires dayKey < todayKey
    ensures Merged(data, dayKey, groups, todayKey) == map k | k in data && k >= todayKey :: data[k]
  {
    var r := Merged(data, dayKey, groups, todayKey);
    assert r.Keys == (map k | k in data && k >= todayKey :: data[k]).Keys;
  }

  /**
    The run as written loses a header dated by a bare "05.03.2025": the date
    is read as "05.03.2020", and when that day is before today the new
    groups are deleted straight after insertion, leaving only the current
    stored days.
  */
  lemma BareFullDateScheduleLost(data: map<int, Groups>, groups: Groups, now: Moment, dayKeyOf: string -> int)
    requires dayKeyOf("05.03.2020") < dayKeyOf(FormatDate(now))
    ensures var today := dayKeyOf(FormatDate(now));
            Merged(data, dayKeyOf(ScheduleDate("05.03.2025", now)), groups, today)
              == map k | k in data && k >= today :: data[k]
  {
    BareFullDateExample(now);
    PastScheduleDropped(data, dayKeyOf("05.03.2020"), groups, dayKeyOf(FormatDate(now)));
  }

  /** An empty store given today's schedule holds that one day. */
  lemma MergeIntoEmpty(groups: Groups, todayKey: int)
    ensures Merged(map[], todayKey, groups, todayKey) == map[todayKey := groups]
  {
    var r := Merged(map[], todayKey, groups, todayKey);
    assert r.Keys == {todayKey};
  }

  /** A store of days yesterday and the day before, given tomorrow's schedule, holds tomorrow alone. */
  lemma MergeDropsPastDays(g1: Groups, g2: Groups, g3: Groups, todayKey: int)
    ensures Merged(map[todayKey - 2 := g1, todayKey - 1 := g2], todayKey + 1, g3, todayKey) == map[todayKey + 1 := g3]
  {
    var r := Merged(map[todayKey - 2 := g1, todayKey - 1 := g2], todayKey + 1, g3, todayKey);
    assert r.Keys == {todayKey + 1};
  }

  /**
    The `fact` section of the stored document: the day buckets under their
    integer day keys (stored as their decimal strings), the update string and
    today's key.
  */
  class Fact {
    var data: map<int, Groups>
    var update: string
    var today: int

    /** A document without a usable `fact.data` section starts with an empty one. */
    constructor Empty()
      ensures data == map[] && update == "" && today == 0
    {
      data := map[];
      update := "";
      today := 0;
    }

    /** A document read back from the store. */
    constructor Load(data: map<int, Groups>, update: string, today: int)
      ensures this.data == data && this.update == update && this.today == today
    {
      this.data := data;
      this.update := update;
      this.today := today;
    }

    /**
      Files `groups` under `dayKey`, then deletes every bucket whose key is
      below `todayKey`, and overwrites the update string and today's key.
    */
    method Merge(dayKey: int, groups: Groups, update: string, todayKey: int)
      modifies this
      ensures data == Merged(old(data), dayKey, groups, todayKey)
      ensures this.update == update && today == todayKey
    {
      data := data[dayKey := groups];
      ghost var inserted := data;
      var doomed := set k | k in data && k < todayKey;
      var remaining := doomed;
      while remaining != {}
        invariant remaining <= doomed
        invariant data == inserted - (doomed - remaining)
        decreases |remaining|
      {
        var k :| k in remaining;
        data := data - {k};
        remaining := remaining - {k};
      }
      PurgeIsMerged(old(data), dayKey, groups, todayKey);
      this.update := update;
      today := todayKey;
    }
  }

  /** The rows of the table: the candidates sorted top to bottom, cut into rows, each ordered by x. */
  function TableRows(cands: seq<Candidate>): (rows: seq<seq<Candidate>>)
    requires |cands| > 0
    ensures |rows| > 0 && forall k :: 0 <= k < |rows| ==> |rows[k]| > 0
    ensures multiset(Concat(rows)) == multiset(cands)
  {
    var sorted := SortContours(cands, "top-to-bottom").value;
    var segs := Cut(sorted);
    CutIsPartition(sorted);
    EachByXRows(segs);
    EachByXPermutes(segs);
    forall k | 0 <= k < |segs| ensures |EachByX(segs)[k]| > 0 {
      RowKeepsBoxes(segs[k]);
    }
    EachByX(segs)
  }

  /** The header boundary depends on the boxes only through which boxes there are. */
  lemma SameHeader(rows: seq<seq<Candidate>>, boxes: seq<Candidate>, others: seq<Candidate>)
    requires multiset(boxes) == multiset(others) && |boxes| > 0
    requires |rows| >= 2 ==> |rows[0]| > 0 && |rows[1]| > 0
    ensures HeaderY(rows, boxes) == HeaderY(rows, others)
  {
    if |rows| < 2 {
      assert forall c :: c in boxes <==> c in multiset(boxes);
      assert forall c :: c in others <==> c in multiset(others);
    }
  }

  /**
    One run over a table image: the candidate cell boxes (the contour
    detection is not modelled) are sorted and grouped into rows, the header
    boundary fixes which text was read for the dates, the groups are built
    and merged into the store. With no candidate box the run fails before
    touching the store.
  */
  method Run(fact: Fact, cands: seq<Candidate>, img: Image, headerText: string, now: Moment, dayKeyOf: string -> int)
    returns (r: Option<Groups>)
    requires Rectangular(img)
    modifies fact
    ensures r.None? <==> |cands| == 0
    ensures r.None? ==> unchanged(fact)
    ensures r.Some? ==>
              var rows := TableRows(cands);
              var dates := DatesFromHeader(HeaderY(rows, cands), Height(img), Width(img), headerText, now);
              && r.value == QueueGroups(img, LastN(rows, QUEUE_COUNT))
              && fact.data == Merged(old(fact.data), dayKeyOf(dates.0), r.value, dayKeyOf(FormatDate(now)))
              && fact.update == dates.1
              && fact.today == dayKeyOf(FormatDate(now))
  {
    var sorted := SortContours(cands, "top-to-bottom");
    if sorted.None? {
      return None;
    }
    var rows, segs := GroupRows(sorted.value);
    assert rows == TableRows(cands);
    var headerY := HeaderY(rows, sorted.value);
    SameHeader(rows, sorted.value, cands);
    var dates := DatesFromHeader(headerY, Height(img), Width(img), headerText, now);
    var groups := BuildGroups(img, rows);
    fact.Merge(dayKeyOf(dates.0), groups, dates.1, dayKeyOf(FormatDate(now)));
    r := Some(groups);
  }

  /**
    The `preset.time_zone` entry of hour slot `i` (0-based): its label
    `HH-HH`, its start `HH:00` and its end, `24:00` for the last slot.
  */
  function TimeZoneSlot(i: nat): (string, string, string)
    requires i < HOUR_CELLS
  {
    (Pad2(i) + "-" + Pad2(i + 1), Pad2(i) + ":00", if i < 23 then Pad2((i + 1) % 24) + ":00" else "24:00")
  }

  /** The slots tile the day: each ends where the next starts, and the last ends at 24:00. */
  lemma TimeZoneSlotsMeet(i: nat)
    requires i < HOUR_CELLS
    ensures i + 1 < HOUR_CELLS ==> TimeZoneSlot(i).2 == TimeZoneSlot(i + 1).1
    ensures i + 1 == HOUR_CELLS ==> TimeZoneSlot(i).2 == "24:00"
  {
    if i + 1 < HOUR_CELLS {
      assert (i + 1) % 24 == i + 1;
    }
  }
}
