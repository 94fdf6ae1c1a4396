/**
 The recorded log: rows in insertion order, and the ordered half-open window query the
 replayer issues against it.
 */
module SessionLog {
  import opened Options

  datatype Payload = Payload(
    sourceId: Option<string>,
    originalSourceId: Option<string>,
    isReplay: bool,
    startTime: Option<real>,
    endTime: Option<real>,
    timestamp: Option<real>,
    timestamps: Option<seq<real>>,
    values: seq<real>)

  /** One row of `session_log`; `isData` stands for the type DATA_STREAM. */
  datatype Row = Row(eventTime: real, seqNo: nat, isData: bool, payload: Payload)

  type Log = seq<Row>

  /** `seq` is an autoincrement key: rows carry distinct, growing numbers. */
  ghost predicate Numbered(log: Log) {
    forall i :: 0 <= i < |log| ==> log[i].seqNo == i + 1
  }

  predicate Before(a: Row, b: Row) {
    a.eventTime < b.eventTime || (a.eventTime == b.eventTime && a.seqNo < b.seqNo)
  }

  /** By event time and, at equal times, by sequence number. */
  ghost predicate Sorted(rows: seq<Row>) {
    forall i, j :: 0 <= i < j < |rows| ==>
      rows[i].eventTime < rows[j].eventTime
      || (rows[i].eventTime == rows[j].eventTime && rows[i].seqNo <= rows[j].seqNo)
  }

  function InsertRow(r: Row, rows: seq<Row>): (s: seq<Row>)
    ensures |s| == |rows| + 1
  {
    if rows == [] || !Before(rows[0], r) then [r] + rows else [rows[0]] + InsertRow(r, rows[1..])
  }

  /** ORDER BY event_time_ms, seq. */
  function Ordered(log: Log): (s: seq<Row>)
    ensures |s| == |log|
  {
    if log == [] then [] else InsertRow(log[0], Ordered(log[1..]))
  }

  lemma {:induction false} InsertRowHolds(r: Row, rows: seq<Row>)
    ensures multiset(InsertRow(r, rows)) == multiset(rows) + multiset{r}
  {
    if rows != [] && Before(rows[0], r) {
      InsertRowHolds(r, rows[1..]);
      assert rows == [rows[0]] + rows[1..];
    }
  }

  lemma {:induction false} InsertRowSorted(r: Row, rows: seq<Row>)
    requires Sorted(rows)
    ensures Sorted(InsertRow(r, rows))
  {
    if rows == [] {
    } else if !Before(rows[0], r) {
    } else {
      var t := InsertRow(r, rows[1..]);
      InsertRowSorted(r, rows[1..]);
      InsertRowHolds(r, rows[1..]);
      forall i | 0 <= i < |t| ensures !Before(t[i], rows[0]) {
        assert t[i] in multiset(t);
        assert t[i] == r || t[i] in rows[1..];
      }
    }
  }

  lemma {:induction false} OrderedHolds(log: Log)
    ensures Sorted(Ordered(log))
    ensures multiset(Ordered(log)) == multiset(log)
  {
    if log == [] {
    } else {
      OrderedHolds(log[1..]);
      InsertRowSorted(log[0], Ordered(log[1..]));
      InsertRowHolds(log[0], Ordered(log[1..]));
      assert log == [log[0]] + log[1..];
    }
  }

  /** WHERE event_time_ms >= lo AND event_time_ms < hi. */
  function Within(rows: seq<Row>, lo: real, hi: real): (w: seq<Row>)
  {
    if rows == [] then []
    else if lo <= rows[0].eventTime < hi then [rows[0]] + Within(rows[1..], lo, hi)
    else Within(rows[1..], lo, hi)
  }

  /** The replayer skips everything but DATA_STREAM rows. */
  function DataRows(rows: seq<Row>): (d: seq<Row>)
  {
    if rows == [] then []
    else if rows[0].isData then [rows[0]] + DataRows(rows[1..])
    else DataRows(rows[1..])
  }

  /** The rows one `_emit_range` call sends, in the order it sends them. */
  function Select(log: Log, lo: real, hi: real): seq<Row> {
    DataRows(Within(Ordered(log), lo, hi))
  }

  // ---------------------------------------------------------------- what a window holds

  lemma {:induction false} DataRowsConcat(a: seq<Row>, b: seq<Row>)
    ensures DataRows(a + b) == DataRows(a) + DataRows(b)
  {
    if a == [] {
      assert a + b == b;
    } else {
      assert (a + b)[1..] == a[1..] + b;
      DataRowsConcat(a[1..], b);
    }
  }

  lemma DataRowsSnoc(rows: seq<Row>, r: Row)
    ensures DataRows(rows + [r]) == if r.isData then DataRows(rows) + [r] else DataRows(rows)
  {
    DataRowsConcat(rows, [r]);
    assert [r][1..] == [];
  }

  lemma {:induction false} WithinNothing(rows: seq<Row>, lo: real, hi: real)
    requires forall i :: 0 <= i < |rows| ==> !(lo <= rows[i].eventTime < hi)
    ensures Within(rows, lo, hi) == []
  {
    if rows == [] {
    } else {
      WithinNothing(rows[1..], lo, hi);
    }
  }

  ghost predicate InTimeOrder(rows: seq<Row>) {
    forall i, j :: 0 <= i < j < |rows| ==> rows[i].eventTime <= rows[j].eventTime
  }

  lemma SortedInTimeOrder(rows: seq<Row>)
    requires Sorted(rows)
    ensures InTimeOrder(rows)
  {
  }

  /** Adjacent windows of an ordered log concatenate: no gap, no duplicate. */
  lemma {:induction false} WithinSplit(rows: seq<Row>, lo: real, mid: real, hi: real)
    requires InTimeOrder(rows) && lo <= mid <= hi
    ensures Within(rows, lo, hi) == Within(rows, lo, mid) + Within(rows, mid, hi)
  {
    if rows == [] {
    } else {
      var head, rest := rows[0], rows[1..];
      WithinSplit(rest, lo, mid, hi);
      var a, b := Within(rest, lo, mid), Within(rest, mid, hi);
      if lo <= head.eventTime < mid {
        assert [head] + (a + b) == ([head] + a) + b;
      } else if head.eventTime >= mid {
        WithinNothing(rest, lo, mid);
        assert a == [] && a + b == b;
      }
    }
  }

  lemma SelectSplit(log: Log, lo: real, mid: real, hi: real)
    requires lo <= mid <= hi
    ensures Select(log, lo, hi) == Select(log, lo, mid) + Select(log, mid, hi)
  {
    OrderedHolds(log);
    SortedInTimeOrder(Ordered(log));
    WithinSplit(Ordered(log), lo, mid, hi);
    DataRowsConcat(Within(Ordered(log), lo, mid), Within(Ordered(log), mid, hi));
  }

  lemma SelectEmpty(log: Log, lo: real, hi: real)
    requires hi <= lo
    ensures Select(log, lo, hi) == []
  {
    WithinNothing(Ordered(log), lo, hi);
  }

  lemma FilterStep(rows: seq<Row>, lo: real, hi: real)
    requires rows != []
    ensures DataRows(Within(rows, lo, hi)) ==
            (if rows[0].isData && lo <= rows[0].eventTime < hi then [rows[0]] else [])
            + DataRows(Within(rows[1..], lo, hi))
  {
    var head, w := rows[0], Within(rows[1..], lo, hi);
    if lo <= head.eventTime < hi {
      assert ([head] + w)[1..] == w;
      assert DataRows([head] + w) == if head.isData then [head] + DataRows(w) else DataRows(w);
    }
  }

  lemma {:induction false} FilterCounts(rows: seq<Row>, lo: real, hi: real)
    ensures forall r :: multiset(DataRows(Within(rows, lo, hi)))[r] ==
                        if r.isData && lo <= r.eventTime < hi then multiset(rows)[r] else 0
  {
    if rows == [] {
    } else {
      FilterStep(rows, lo, hi);
      FilterCounts(rows[1..], lo, hi);
      assert rows == [rows[0]] + rows[1..];
      hide DataRows, Within;
    }
  }

  lemma {:induction false} FilterSorted(rows: seq<Row>, lo: real, hi: real)
    requires Sorted(rows)
    ensures Sorted(DataRows(Within(rows, lo, hi)))
    ensures forall r :: r in DataRows(Within(rows, lo, hi)) ==> r in rows
  {
    if rows == [] {
    } else {
      FilterStep(rows, lo, hi);
      var head, rest := rows[0], rows[1..];
      FilterSorted(rest, lo, hi);
      assert rows == [head] + rest;
      forall r | r in rest
        ensures head.eventTime < r.eventTime || (head.eventTime == r.eventTime && head.seqNo <= r.seqNo)
      {
        var j :| 0 <= j < |rest| && rest[j] == r;
        assert rows[j + 1] == r;
      }
      hide DataRows, Within;
      var d := DataRows(Within(rest, lo, hi));
      assert forall j :: 0 <= j < |d| ==> d[j] in rest;
    }
  }

  /**
   Independent reading of a window: it is in (event time, seq) order, and it holds every
   DATA_STREAM row of `[lo, hi)` exactly as often as the table does, and nothing else.
   */
  lemma SelectExact(log: Log, lo: real, hi: real)
    ensures Sorted(Select(log, lo, hi))
    ensures forall r :: multiset(Select(log, lo, hi))[r] ==
                        if r.isData && lo <= r.eventTime < hi then multiset(log)[r] else 0
  {
    OrderedHolds(log);
    FilterSorted(Ordered(log), lo, hi);
    FilterCounts(Ordered(log), lo, hi);
  }

  lemma SelectMembers(log: Log, lo: real, hi: real, r: Row)
    ensures r in Select(log, lo, hi) <==> r in log && r.isData && lo <= r.eventTime < hi
  {
    SelectExact(log, lo, hi);
    assert r in Select(log, lo, hi) <==> multiset(Select(log, lo, hi))[r] > 0;
    assert r in log <==> multiset(log)[r] > 0;
  }

  // ---------------------------------------------------------------- time bounds

  datatype Span = Span(first: real, last: real)

  /** SELECT MIN(event_time_ms), MAX(event_time_ms) over the DATA_STREAM rows. */
  function DataSpan(log: Log): (s: Option<Span>)
    ensures s.None? ==> forall r :: r in log ==> !r.isData
    ensures s.Some? ==>
      && (forall r :: r in log && r.isData ==> s.value.first <= r.eventTime <= s.value.last)
      && (exists r :: r in log && r.isData && r.eventTime == s.value.first)
      && (exists r :: r in log && r.isData && r.eventTime == s.value.last)
  {
    if log == [] then None
    else
      var rest := DataSpan(log[1..]);
      assert forall r :: r in log <==> r == log[0] || r in log[1..];
      if !log[0].isData then rest
      else
        assert log[0] in log;
        var t := log[0].eventTime;
        match rest
        case None => Some(Span(t, t))
        case Some(s) => Some(Span(if t < s.first then t else s.first, if t > s.last then t else s.last))
  }

  /** A session file: the log and the two optional `session_meta` bounds. */
  datatype Session = Session(log: Log, metaStart: Option<real>, metaEnd: Option<real>)

  /** `_read_time_bounds`: the metadata when both keys exist, else the span of the log. */
  function TimeBounds(s: Session): Option<Span> {
    if s.metaStart.Some? && s.metaEnd.Some? then Some(Span(s.metaStart.value, s.metaEnd.value))
    else DataSpan(s.log)
  }

  /** The metadata goes before the log; without both keys the bounds are times of DATA_STREAM rows, if there are any. */
  lemma BoundsOfFile(s: Session)
    ensures s.metaStart.Some? && s.metaEnd.Some? ==> TimeBounds(s) == Some(Span(s.metaStart.value, s.metaEnd.value))
    ensures s.metaStart.None? || s.metaEnd.None? ==>
      && (TimeBounds(s).None? <==> forall r :: r in s.log ==> !r.isData)
      && (TimeBounds(s).Some? ==>
            var b := TimeBounds(s).value;
            && (forall r :: r in s.log && r.isData ==> b.first <= r.eventTime <= b.last)
            && (exists r :: r in s.log && r.isData && r.eventTime == b.first)
            && (exists r :: r in s.log && r.isData && r.eventTime == b.last))
  {
    if s.metaStart.None? || s.metaEnd.None? {
      assert TimeBounds(s) == DataSpan(s.log);
    }
    hide DataSpan;
  }
}
