/**
  The table grid: candidate cell boxes are sorted by their top edge, cut into
  rows of boxes whose tops lie within a fixed tolerance of the row's first
  box, each row is ordered left to right, and the header region above the
  table is bounded from the first two rows.
*/
module Grid {
  import opened Results

  /** A bounding box `(x, y, w, h)`: top-left corner, width and height in pixels. */
  datatype Box = Box(x: nat, y: nat, w: nat, h: nat)

  /** A candidate cell: its contour (by index among the detected contours) and its bounding box. */
  datatype Candidate = Candidate(contour: nat, box: Box)

  datatype Axis = X | Y

  /** Which coordinate is sorted on, and whether the order is descending. */
  datatype Order = Order(axis: Axis, reverse: bool)

  /** The `method` argument of `sort_contours`, here `direction`; any other string sorts left to right. */
  function OrderOf(direction: string): Order {
    Order(if direction == "top-to-bottom" || direction == "bottom-to-top" then Y else X,
          direction == "right-to-left" || direction == "bottom-to-top")
  }

  const LeftToRight := Order(X, false)
  const TopToBottom := Order(Y, false)

  function Coord(c: Candidate, axis: Axis): nat {
    match axis
    case X => c.box.x
    case Y => c.box.y
  }

  /** The sort key: the coordinate, negated for a descending order. */
  function Rank(c: Candidate, o: Order): int {
    if o.reverse then -(Coord(c, o.axis) as int) else Coord(c, o.axis)
  }

  /** Non-decreasing in the coordinate, or non-increasing when the order is reversed. */
  predicate Sorted(s: seq<Candidate>, o: Order) {
    forall i, j :: 0 <= i < j < |s| ==> Rank(s[i], o) <= Rank(s[j], o)
  }

  /** The candidates of `s` whose coordinate is `v`, in their order in `s`. */
  function WithCoord(s: seq<Candidate>, axis: Axis, v: int): seq<Candidate> {
    if s == [] then []
    else (if Coord(s[0], axis) == v then [s[0]] else []) + WithCoord(s[1..], axis, v)
  }

  /** Puts `c` before the first candidate of `t` whose key is not below its own. */
  function Insert(c: Candidate, t: seq<Candidate>, o: Order): seq<Candidate> {
    if t == [] || Rank(c, o) <= Rank(t[0], o) then [c] + t
    else [t[0]] + Insert(c, t[1..], o)
  }

  /** Python's stable `sorted(..., key=coordinate, reverse=...)`. */
  function Sort(s: seq<Candidate>, o: Order): seq<Candidate> {
    if s == [] then [] else Insert(s[0], Sort(s[1..], o), o)
  }

  lemma {:induction false} InsertPermutes(c: Candidate, t: seq<Candidate>, o: Order)
    ensures multiset(Insert(c, t, o)) == multiset{c} + multiset(t)
  {
    if t != [] && Rank(t[0], o) < Rank(c, o) {
      InsertPermutes(c, t[1..], o);
      assert t == [t[0]] + t[1..];
    }
  }

  lemma {:induction false} InsertSorted(c: Candidate, t: seq<Candidate>, o: Order)
    requires Sorted(t, o)
    ensures Sorted(Insert(c, t, o), o)
  {
    if t != [] && Rank(t[0], o) < Rank(c, o) {
      InsertSorted(c, t[1..], o);
      InsertBounded(c, t[1..], o, Rank(t[0], o));
    }
  }

  /** A lower bound of `c` and of every key of `t` bounds every key of the result. */
  lemma {:induction false} InsertBounded(c: Candidate, t: seq<Candidate>, o: Order, b: int)
    requires b <= Rank(c, o) && forall k :: 0 <= k < |t| ==> b <= Rank(t[k], o)
    ensures forall k :: 0 <= k < |Insert(c, t, o)| ==> b <= Rank(Insert(c, t, o)[k], o)
  {
    if t != [] && Rank(t[0], o) < Rank(c, o) {
      InsertBounded(c, t[1..], o, b);
    }
  }

  lemma {:induction false} InsertKeepsTies(c: Candidate, t: seq<Candidate>, o: Order, v: int)
    ensures WithCoord(Insert(c, t, o), o.axis, v) == (if Coord(c, o.axis) == v then [c] else []) + WithCoord(t, o.axis, v)
  {
    var r := Insert(c, t, o);
    if t == [] || Rank(c, o) <= Rank(t[0], o) {
      assert r[0] == c && r[1..] == t;
    } else {
      InsertKeepsTies(c, t[1..], o, v);
      assert r[0] == t[0] && r[1..] == Insert(c, t[1..], o);
    }
  }

  lemma {:induction false} SortFacts(s: seq<Candidate>, o: Order)
    ensures Sorted(Sort(s, o), o)
    ensures multiset(Sort(s, o)) == multiset(s)
    ensures forall v :: WithCoord(Sort(s, o), o.axis, v) == WithCoord(s, o.axis, v)
  {
    if s != [] {
      SortFacts(s[1..], o);
      InsertSorted(s[0], Sort(s[1..], o), o);
      InsertPermutes(s[0], Sort(s[1..], o), o);
      forall v ensures WithCoord(Sort(s, o), o.axis, v) == WithCoord(s, o.axis, v) {
        InsertKeepsTies(s[0], Sort(s[1..], o), o, v);
      }
      assert s == [s[0]] + s[1..];
    }
  }

  /**
    `sort_contours`: the candidates paired with their boxes, ordered by x (by y
    for "top-to-bottom" and "bottom-to-top"), descending for "right-to-left"
    and "bottom-to-top", ties kept in input order. An empty input has nothing
    to unpack and fails (`None`).
  */
  function SortContours(cands: seq<Candidate>, direction: string): (r: Option<seq<Candidate>>)
    ensures r.Some? <==> |cands| > 0
    ensures r.Some? ==> multiset(r.value) == multiset(cands)
    ensures r.Some? ==> forall i, j :: 0 <= i < j < |r.value| ==>
              if OrderOf(direction).reverse
              then Coord(r.value[j], OrderOf(direction).axis) <= Coord(r.value[i], OrderOf(direction).axis)
              else Coord(r.value[i], OrderOf(direction).axis) <= Coord(r.value[j], OrderOf(direction).axis)
    ensures r.Some? ==> forall v :: WithCoord(r.value, OrderOf(direction).axis, v) == WithCoord(cands, OrderOf(direction).axis, v)
  {
    if |cands| == 0 then None
    else
      SortFacts(cands, OrderOf(direction));
      Some(Sort(cands, OrderOf(direction)))
  }

  /** Boxes whose tops differ by at most this many pixels belong to one row. */
  const ROW_TOLERANCE := 15

  /** Above the midpoint of the first two rows, the header region reaches this many pixels higher. */
  const HEADER_LIFT := 35

  function Abs(x: int): nat {
    if x < 0 then -x else x
  }

  function Concat(rows: seq<seq<Candidate>>): seq<Candidate> {
    if rows == [] then [] else rows[0] + Concat(rows[1..])
  }

  lemma {:induction false} ConcatAppend(rows: seq<seq<Candidate>>, t: seq<Candidate>)
    ensures Concat(rows + [t]) == Concat(rows) + t
  {
    if rows != [] {
      assert (rows + [t])[1..] == rows[1..] + [t];
      ConcatAppend(rows[1..], t);
    } else {
      assert [t][1..] == [];
    }
  }

  lemma {:induction false} InConcat(rows: seq<seq<Candidate>>, k: nat, c: Candidate)
    requires k < |rows| && c in rows[k]
    ensures c in Concat(rows)
  {
    if k > 0 {
      InConcat(rows[1..], k - 1, c);
    }
  }

  /** A row ordered by x, as `current_row.sort(key=x)` leaves it. */
  function ByX(row: seq<Candidate>): seq<Candidate> {
    Sort(row, LeftToRight)
  }

  /**
    `segs` is how the row grouping cuts `s`: in order and without gaps, no
    segment empty, every box within the tolerance of its segment's first box
    (the anchor), and the first box of each next segment outside the tolerance
    of the previous anchor.
  */
  ghost predicate IsRowPartition(s: seq<Candidate>, segs: seq<seq<Candidate>>) {
    Concat(segs) == s && WellCut(segs)
  }

  ghost predicate WellCut(segs: seq<seq<Candidate>>) {
    && (forall k :: 0 <= k < |segs| ==> |segs[k]| > 0)
    && (forall k, c :: 0 <= k < |segs| && c in segs[k] ==> Abs(c.box.y - segs[k][0].box.y) <= ROW_TOLERANCE)
    && (forall k, l :: 0 <= k < l < |segs| && l == k + 1 ==> Abs(segs[l][0].box.y - segs[k][0].box.y) > ROW_TOLERANCE)
  }

  /** Closing a row whose boxes lie near its first one, which lies far from the previous anchor, keeps the cut well formed. */
  lemma CloseRow(segs: seq<seq<Candidate>>, current: seq<Candidate>)
    requires WellCut(segs) && |current| > 0
    requires forall c :: c in current ==> Abs(c.box.y - current[0].box.y) <= ROW_TOLERANCE
    requires |segs| > 0 ==> Abs(current[0].box.y - segs[|segs| - 1][0].box.y) > ROW_TOLERANCE
    ensures WellCut(segs + [current])
  {
  }

  /**
    The row cut of a candidate sequence, box by box: a box joins the last row
    when its top is within the tolerance of that row's first box (its anchor),
    and opens a new row otherwise.
  */
  function Cut(p: seq<Candidate>): (segs: seq<seq<Candidate>>)
    ensures |p| > 0 ==> |segs| > 0 && |segs[|segs| - 1]| > 0
    ensures |p| == 0 ==> segs == []
  {
    if p == [] then []
    else
      var prev := Cut(p[..|p| - 1]);
      var x := p[|p| - 1];
      if prev == [] then [[x]]
      else if Abs(x.box.y - prev[|prev| - 1][0].box.y) <= ROW_TOLERANCE then prev[..|prev| - 1] + [prev[|prev| - 1] + [x]]
      else prev + [[x]]
  }

  lemma WellCutPrefix(segs: seq<seq<Candidate>>, n: nat)
    requires WellCut(segs) && n <= |segs|
    ensures WellCut(segs[..n])
  {
  }

  /** Adding a box to the last row, within the tolerance of its anchor, keeps a row partition. */
  lemma JoinLastRow(q: seq<Candidate>, prev: seq<seq<Candidate>>, x: Candidate)
    requires IsRowPartition(q, prev) && |prev| > 0
    requires Abs(x.box.y - prev[|prev| - 1][0].box.y) <= ROW_TOLERANCE
    ensures IsRowPartition(q + [x], prev[..|prev| - 1] + [prev[|prev| - 1] + [x]])
  {
    var n := |prev|;
    var init, last := prev[..n - 1], prev[n - 1];
    assert prev == init + [last];
    ConcatAppend(init, last);
    ConcatAppend(init, last + [x]);
    WellCutPrefix(prev, n - 1);
    forall c | c in last + [x] ensures Abs(c.box.y - (last + [x])[0].box.y) <= ROW_TOLERANCE {
      if c != x {
        assert c in last;
      }
    }
    if n > 1 {
      assert init[n - 2] == prev[n - 2];
    }
    CloseRow(init, last + [x]);
  }

  /** Opening a new row with a box outside the tolerance of the last anchor keeps a row partition. */
  lemma OpenRow(q: seq<Candidate>, prev: seq<seq<Candidate>>, x: Candidate)
    requires IsRowPartition(q, prev)
    requires |prev| > 0 ==> Abs(x.box.y - prev[|prev| - 1][0].box.y) > ROW_TOLERANCE
    ensures IsRowPartition(q + [x], prev + [[x]])
  {
    ConcatAppend(prev, [x]);
    CloseRow(prev, [x]);
  }

  /** The cut is a row partition of the input. */
  lemma {:induction false} CutIsPartition(p: seq<Candidate>)
    ensures IsRowPartition(p, Cut(p))
  {
    if p != [] {
      var q, x := p[..|p| - 1], p[|p| - 1];
      var prev: seq<seq<Candidate>> := Cut(q);
      CutIsPartition(q);
      assert p == q + [x];
      if prev != [] && Abs(x.box.y - prev[|prev| - 1][0].box.y) <= ROW_TOLERANCE {
        JoinLastRow(q, prev, x);
      } else {
        OpenRow(q, prev, x);
      }
    }
  }

  /**
    The row grouping of `run`: walks the y-sorted candidates, keeps a box in
    the current row while its top is within 15 pixels of the row's first box,
    otherwise closes the row (ordered by x) and opens a new one. The segments
    are the cut of the input, so a row partition of it; each row is its
    segment ordered by x, and the rows together are a permutation of the input.
  */
  method GroupRows(s: seq<Candidate>) returns (rows: seq<seq<Candidate>>, ghost segs: seq<seq<Candidate>>)
    requires |s| > 0
    ensures segs == Cut(s) && IsRowPartition(s, segs)
    ensures |segs| > 0 && rows == EachByX(segs)
    ensures multiset(Concat(rows)) == multiset(s)
  {
    rows := [];
    segs := [];
    var current: seq<Candidate> := [];
    var previousY := s[0].box.y;
    var i := 0;
    while i < |s|
      invariant 0 <= i <= |s|
      invariant i == 0 ==> current == [] && segs == [] && previousY == s[0].box.y
      invariant i > 0 ==> |current| > 0 && segs + [current] == Cut(s[..i]) && previousY == current[0].box.y
      invariant rows == EachByX(segs)
    {
      var c := s[i];
      CutAdvance(s, i, segs, current);
      if Abs(c.box.y - previousY) <= ROW_TOLERANCE {
        current := current + [c];
      } else {
        EachByXAppend(segs, current);
        rows := rows + [ByX(current)];
        segs := segs + [current];
        current := [c];
        previousY := c.box.y;
      }
      i := i + 1;
    }
    EachByXAppend(segs, current);
    rows := rows + [ByX(current)];
    segs := segs + [current];
    assert s[..|s|] == s;
    CutIsPartition(s);
    EachByXPermutes(segs);
  }

  /** Every segment ordered by x. */
  function EachByX(segs: seq<seq<Candidate>>): seq<seq<Candidate>> {
    if segs == [] then [] else EachByX(segs[..|segs| - 1]) + [ByX(segs[|segs| - 1])]
  }

  lemma EachByXAppend(segs: seq<seq<Candidate>>, t: seq<Candidate>)
    ensures EachByX(segs + [t]) == EachByX(segs) + [ByX(t)]
  {
  }

  lemma {:induction false} EachByXRows(segs: seq<seq<Candidate>>)
    ensures |EachByX(segs)| == |segs|
    ensures forall k :: 0 <= k < |segs| ==> EachByX(segs)[k] == ByX(segs[k])
  {
    if segs != [] {
      EachByXRows(segs[..|segs| - 1]);
    }
  }

  lemma EachByXPermutes(segs: seq<seq<Candidate>>)
    ensures multiset(Concat(EachByX(segs))) == multiset(Concat(segs))
  {
    EachByXRows(segs);
    RowsPermutation(EachByX(segs), segs);
  }

  /** One step of the grouping loop extends the cut of the prefix by one box. */
  lemma CutAdvance(s: seq<Candidate>, i: nat, segs: seq<seq<Candidate>>, current: seq<Candidate>)
    requires i < |s|
    requires i == 0 ==> current == [] && segs == []
    requires i > 0 ==> |current| > 0 && segs + [current] == Cut(s[..i])
    ensures i == 0 ==> segs + [current + [s[i]]] == Cut(s[..i + 1])
    ensures i > 0 && Abs(s[i].box.y - current[0].box.y) <= ROW_TOLERANCE ==> segs + [current + [s[i]]] == Cut(s[..i + 1])
    ensures i > 0 && Abs(s[i].box.y - current[0].box.y) > ROW_TOLERANCE ==> segs + [current] + [[s[i]]] == Cut(s[..i + 1])
  {
    var c := s[i];
    CutStep(s, i);
    var prev := Cut(s[..i]);
    if i == 0 {
      assert s[..0] == [];
      assert current + [c] == [c];
      assert segs + [[c]] == [[c]];
    } else {
      assert prev[..|prev| - 1] == segs && prev[|prev| - 1] == current;
    }
  }

  /** One more box extends the cut of the prefix as the loop does. */
  lemma CutStep(s: seq<Candidate>, i: nat)
    requires i < |s|
    ensures var prev, x := Cut(s[..i]), s[i];
            Cut(s[..i + 1]) ==
              if prev == [] then [[x]]
              else if Abs(x.box.y - prev[|prev| - 1][0].box.y) <= ROW_TOLERANCE then prev[..|prev| - 1] + [prev[|prev| - 1] + [x]]
              else prev + [[x]]
  {
    assert s[..i + 1][..i] == s[..i];
  }

  lemma {:induction false} RowsPermutation(rows: seq<seq<Candidate>>, segs: seq<seq<Candidate>>)
    requires |rows| == |segs| && forall k :: 0 <= k < |rows| ==> rows[k] == ByX(segs[k])
    ensures multiset(Concat(rows)) == multiset(Concat(segs))
  {
    if rows != [] {
      SortFacts(segs[0], LeftToRight);
      RowsPermutation(rows[1..], segs[1..]);
    }
  }

  predicate YSorted(s: seq<Candidate>) {
    Sorted(s, TopToBottom)
  }

  /** On y-sorted input every row's anchor lies more than 15 pixels below the previous one. */
  lemma {:induction false} AnchorsIncrease(s: seq<Candidate>, segs: seq<seq<Candidate>>)
    requires IsRowPartition(s, segs) && YSorted(s)
    decreases |segs|
    ensures forall k, l :: 0 <= k < l < |segs| && l == k + 1 ==> segs[l][0].box.y > segs[k][0].box.y + ROW_TOLERANCE
  {
    if |segs| >= 2 {
      var rest := Concat(segs[1..]);
      assert s == segs[0] + rest;
      assert rest[0] == segs[1][0] && s[|segs[0]|] == rest[0] && s[0] == segs[0][0];
      assert YSorted(rest) by {
        forall i, j | 0 <= i < j < |rest| ensures Rank(rest[i], TopToBottom) <= Rank(rest[j], TopToBottom) {
          assert rest[i] == s[|segs[0]| + i] && rest[j] == s[|segs[0]| + j];
        }
      }
      assert IsRowPartition(rest, segs[1..]) by {
        forall k, l | 0 <= k < l < |segs[1..]| && l == k + 1
          ensures Abs(segs[1..][l][0].box.y - segs[1..][k][0].box.y) > ROW_TOLERANCE
        {
          assert segs[1..][l] == segs[l + 1] && segs[1..][k] == segs[k + 1];
        }
      }
      AnchorsIncrease(rest, segs[1..]);
      forall k, l | 0 <= k < l < |segs| && l == k + 1 ensures segs[l][0].box.y > segs[k][0].box.y + ROW_TOLERANCE {
        if k > 0 {
          assert segs[l] == segs[1..][l - 1] && segs[k] == segs[1..][k - 1];
        }
      }
    }
  }

  /** On y-sorted input no box after the first row lies above the second row's anchor. */
  lemma LaterRowsBelowSecondAnchor(s: seq<Candidate>, segs: seq<seq<Candidate>>)
    requires IsRowPartition(s, segs) && YSorted(s) && |segs| >= 2
    ensures forall k, c :: 1 <= k < |segs| && c in segs[k] ==> segs[1][0].box.y <= c.box.y
  {
    var rest := Concat(segs[1..]);
    assert s == segs[0] + rest;
    assert rest[0] == segs[1][0];
    forall k, c | 1 <= k < |segs| && c in segs[k] ensures segs[1][0].box.y <= c.box.y {
      assert segs[k] == segs[1..][k - 1];
      InConcat(segs[1..], k - 1, c);
      var j :| 0 <= j < |rest| && rest[j] == c;
      assert s[|segs[0]|] == rest[0] && s[|segs[0]| + j] == c;
      if j > 0 {
        assert Rank(s[|segs[0]|], TopToBottom) <= Rank(s[|segs[0]| + j], TopToBottom);
      }
    }
  }

  function Max(a: int, b: int): int {
    if a >= b then a else b
  }

  function MinY(s: seq<Candidate>): (m: nat)
    requires |s| > 0
    ensures exists c :: c in s && c.box.y == m
    ensures forall c :: c in s ==> m <= c.box.y
  {
    if |s| == 1 then s[0].box.y
    else
      var m := MinY(s[1..]);
      assert forall c :: c in s ==> c == s[0] || c in s[1..];
      if s[0].box.y <= m then s[0].box.y else m
  }

  /**
    The bottom of the header region: the smallest top over all boxes when
    there is a single row; otherwise the midpoint (rounded down) of the
    first boxes of the first two rows, raised by 35 pixels, and never above 0.
  */
  function HeaderY(rows: seq<seq<Candidate>>, boxes: seq<Candidate>): (y: int)
    requires |rows| < 2 ==> |boxes| > 0
    requires |rows| >= 2 ==> |rows[0]| > 0 && |rows[1]| > 0
    ensures y >= 0
    ensures |rows| < 2 ==> (exists c :: c in boxes && c.box.y == y) && forall c :: c in boxes ==> y <= c.box.y
  {
    if |rows| < 2 then MinY(boxes)
    else Max(0, (rows[0][0].box.y + rows[1][0].box.y) / 2 - HEADER_LIFT)
  }

  /**
    With rows grouped from y-sorted candidates, the header region ends
    strictly above every box of the second and later rows: the leftmost box
    of a row lies within 15 pixels of its anchor, anchors are more than 15
    apart, and 35 pixels are taken off.
  */
  lemma HeaderAboveLaterRows(s: seq<Candidate>, rows: seq<seq<Candidate>>, segs: seq<seq<Candidate>>)
    requires IsRowPartition(s, segs) && YSorted(s) && |segs| >= 2
    requires rows == EachByX(segs)
    ensures |rows| >= 2 && |rows[0]| > 0 && |rows[1]| > 0
    ensures forall k, c :: 1 <= k < |rows| && c in rows[k] ==> HeaderY(rows, s) < c.box.y
  {
    var a1 := segs[1][0].box.y;
    EachByXRows(segs);
    FirstBoxesNearAnchors(s, rows, segs);
    HeaderBelow(rows, s, a1);
    LaterRowsBelowSecondAnchor(s, segs);
    forall k, c | 1 <= k < |rows| && c in rows[k] ensures a1 <= c.box.y {
      RowKeepsBoxes(segs[k]);
    }
  }

  lemma FirstBoxesNearAnchors(s: seq<Candidate>, rows: seq<seq<Candidate>>, segs: seq<seq<Candidate>>)
    requires IsRowPartition(s, segs) && YSorted(s) && |segs| >= 2
    requires |rows| == |segs| && forall k :: 0 <= k < |segs| ==> rows[k] == ByX(segs[k])
    ensures |rows[0]| > 0 && |rows[1]| > 0
    ensures rows[0][0].box.y < segs[1][0].box.y && rows[1][0].box.y <= segs[1][0].box.y + ROW_TOLERANCE
    ensures segs[1][0].box.y > ROW_TOLERANCE
  {
    RowKeepsBoxes(segs[0]);
    RowKeepsBoxes(segs[1]);
    AnchorsIncrease(s, segs);
    assert rows[0][0] in segs[0] && rows[1][0] in segs[1];
  }

  /** The header line sits 28 pixels or more above `a1`, or at 0, when the first boxes of the first two rows lie as stated. */
  lemma HeaderBelow(rows: seq<seq<Candidate>>, boxes: seq<Candidate>, a1: int)
    requires |rows| >= 2 && |rows[0]| > 0 && |rows[1]| > 0
    requires rows[0][0].box.y < a1 && rows[1][0].box.y <= a1 + ROW_TOLERANCE && a1 > ROW_TOLERANCE
    ensures HeaderY(rows, boxes) < a1
  {
  }

  lemma RowKeepsBoxes(seg: seq<Candidate>)
    ensures |ByX(seg)| == |seg|
    ensures forall c :: c in ByX(seg) <==> c in seg
  {
    SortFacts(seg, LeftToRight);
    assert forall c :: c in ByX(seg) <==> c in multiset(ByX(seg));
  }
}
