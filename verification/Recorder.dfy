/**
 `SessionRecorder`: events are buffered and moved to the session log in batches. Each
 batch insert succeeds or fails as a whole; a failed commit leaves the batch in the open
 transaction, which closing the connection throws away. The sections of `stop` are steps
 of their own, with the writes of other handlers in between.
 */
module Recorder {
  import opened Options
  import opened SessionLog

  const BUFFER_SIZE := 200
  const FLUSH_INTERVAL := 0.5

  datatype TimeSource = Device | Server

  datatype Event = Event(isData: bool, linear: bool, payload: Payload, timestamp: Option<real>)

  /** What is kept of an event: the columns the replayer reads back. */
  datatype Entry = Entry(eventTime: real, isData: bool, payload: Payload)

  /** What the database answers to the three statements of a flush. */
  datatype Outcome = Outcome(sourcesOk: bool, rowsOk: bool, commitOk: bool)

  const ALL_OK := Outcome(true, true, true)

  /** What the tables hold: log rows, the anchoring of each source, the filed time span. */
  datatype Db = Db(rows: seq<Entry>, sources: map<string, TimeSource>, span: Option<Span>)

  const NO_ROWS := Db([], map[], None)

  /**
   `recording` means that a connection is open. `conn` is the database as this connection
   sees it, its open transaction included; `disk` is what is committed. `written` is every
   event a write accepted.
   */
  datatype Tape = Tape(
    recording: bool,
    conn: Db,
    disk: Db,
    buffer: seq<Entry>,
    pending: map<string, TimeSource>,
    known: map<string, TimeSource>,
    lastFlush: real,
    written: seq<Entry>)

  /** The time an event is filed under; a missing one is the clock's, in milliseconds. */
  function EventTime(e: Event, nowMs: real): real {
    if e.isData then
      if e.linear then e.payload.startTime.GetOr(nowMs) else e.payload.timestamp.GetOr(nowMs)
    else
      e.timestamp.GetOr(nowMs)
  }

  function Filed(e: Event, nowMs: real): Entry {
    Entry(EventTime(e, nowMs), e.isData, e.payload)
  }

  /** An event and the clock reading, in seconds, of the section that accepted it. */
  datatype Stamped = Stamped(event: Event, now: real)

  /**
   The entry an event leaves behind: linear data under its start time, other data under its
   timestamp, anything else under the event's own; the clock stands in for a missing field.
   */
  ghost predicate FiledAs(s: Stamped, x: Entry) {
    var e := s.event;
    && x.isData == e.isData && x.payload == e.payload
    && (e.isData && e.linear && e.payload.startTime.Some? ==> x.eventTime == e.payload.startTime.value)
    && (e.isData && !e.linear && e.payload.timestamp.Some? ==> x.eventTime == e.payload.timestamp.value)
    && (!e.isData && e.timestamp.Some? ==> x.eventTime == e.timestamp.value)
    && (e.isData && e.linear && e.payload.startTime.None? ==> x.eventTime == s.now * 1000.0)
    && (e.isData && !e.linear && e.payload.timestamp.None? ==> x.eventTime == s.now * 1000.0)
    && (!e.isData && e.timestamp.None? ==> x.eventTime == s.now * 1000.0)
  }

  lemma FiledHolds(e: Event, now: real)
    ensures FiledAs(Stamped(e, now), Filed(e, now * 1000.0))
  {
  }

  /** `seq` numbers the rows from 1 in insertion order. */
  function ToLog(entries: seq<Entry>): (log: Log)
    ensures Numbered(log) && |log| == |entries|
  {
    seq(|entries|, i requires 0 <= i < |entries| => Row(entries[i].eventTime, i + 1, entries[i].isData,
                                                        entries[i].payload))
  }

  // ---------------------------------------------------------------- steps

  function Flush(t: Tape, o: Outcome, now: real): Tape {
    if !t.recording then t
    else if t.buffer == [] && t.pending == map[] then t
    else if t.pending != map[] && !o.sourcesOk then t
    else
      var s := t.(conn := t.conn.(sources := t.conn.sources + t.pending), pending := map[]);
      if t.buffer != [] && !o.rowsOk then s
      else
        var r := s.(conn := s.conn.(rows := s.conn.rows + s.buffer), buffer := []);
        if o.commitOk then r.(disk := r.conn, lastFlush := now) else r
  }

  function Note(t: Tape, sourceId: string, source: Option<TimeSource>): Tape {
    if source.None? || (sourceId in t.known && t.known[sourceId] == source.value) then t
    else t.(known := t.known[sourceId := source.value], pending := t.pending[sourceId := source.value])
  }

  predicate FlushDue(t: Tape, now: real) {
    |t.buffer| >= BUFFER_SIZE || (t.buffer != [] && now - t.lastFlush >= FLUSH_INTERVAL)
  }

  function Buffered(t: Tape, entry: Entry): Tape {
    t.(buffer := t.buffer + [entry], written := t.written + [entry])
  }

  /** The locked section of a write. Its check for an open recording may have been earlier. */
  function Append(t: Tape, e: Event, source: Option<TimeSource>, now: real, o: Outcome): Tape {
    var b := Buffered(Note(t, e.payload.sourceId.GetOr("system"), source), Filed(e, now * 1000.0));
    if FlushDue(b, now) then Flush(b, o, now) else b
  }

  function Write(t: Tape, e: Event, source: Option<TimeSource>, now: real, o: Outcome): Tape {
    if t.recording then Append(t, e, source, now, o) else t
  }

  const NO_PAYLOAD := Payload(None, None, false, None, None, None, None, [])

  function Marker(now: real): Event {
    Event(false, false, NO_PAYLOAD, Some(now * 1000.0))
  }

  const IDLE := Tape(false, NO_ROWS, NO_ROWS, [], map[], map[], 0.0, [])

  function Start(t: Tape, now: real, o: Outcome): Tape {
    if t.recording then t
    else Write(IDLE.(recording := true, lastFlush := now), Marker(now), None, now, o)
  }

  /** Committing the bounds also commits whatever the transaction still holds. */
  function WriteBounds(t: Tape, insertOk: bool, commitOk: bool): Tape {
    if !t.recording || DataSpan(ToLog(t.conn.rows)).None? || !insertOk then t
    else
      var s := t.(conn := t.conn.(span := DataSpan(ToLog(t.conn.rows))));
      if commitOk then s.(disk := s.conn) else s
  }

  /** Closing throws the open transaction away. */
  function Close(t: Tape): Tape {
    if t.recording then t.(recording := false, conn := t.disk) else t
  }

  /** The sections of `stop` with nothing in between. */
  function Stop(t: Tape, now: real, writeOutcome: Outcome, flushOutcome: Outcome,
                insertOk: bool, commitOk: bool): Tape {
    if !t.recording then t
    else
      var flushed := Flush(Write(t, Marker(now), None, now, writeOutcome), flushOutcome, now);
      Close(WriteBounds(flushed, insertOk, commitOk))
  }

  /** The file a stopped recording leaves behind: a reader gets the filed bounds, else those of the rows. */
  function File(t: Tape): (f: Session)
    ensures TimeBounds(f) == if t.disk.span.Some? then t.disk.span else DataSpan(ToLog(t.disk.rows))
  {
    match t.disk.span
    case Some(s) => Session(ToLog(t.disk.rows), Some(s.first), Some(s.last))
    case None => Session(ToLog(t.disk.rows), None, None)
  }

  // ---------------------------------------------------------------- invariant

  datatype Step =
    | DoStart(now: real, o: Outcome)
    | DoWrite(e: Event, source: Option<TimeSource>, now: real, o: Outcome)
    | DoAppend(e: Event, source: Option<TimeSource>, now: real, o: Outcome)
    | DoFlush(now: real, o: Outcome)
    | DoBounds(insertOk: bool, commitOk: bool)
    | DoClose

  function Next(t: Tape, s: Step): Tape {
    match s
    case DoStart(now, o) => Start(t, now, o)
    case DoWrite(e, source, now, o) => Write(t, e, source, now, o)
    case DoAppend(e, source, now, o) => Append(t, e, source, now, o)
    case DoFlush(now, o) => Flush(t, o, now)
    case DoBounds(insertOk, commitOk) => WriteBounds(t, insertOk, commitOk)
    case DoClose => Close(t)
  }

  function Run(t: Tape, steps: seq<Step>): Tape
    decreases |steps|
  {
    if steps == [] then t else Run(Next(t, steps[0]), steps[1..])
  }

  /** The events a run accepts into the recording it ends in, after those in `before`. */
  function Accepted(t: Tape, steps: seq<Step>, before: seq<Stamped>): seq<Stamped>
    decreases |steps|
  {
    if steps == [] then before else Accepted(Next(t, steps[0]), steps[1..], AcceptedBy(t, steps[0], before))
  }

  /** A start begins anew, with its marker; a write is accepted while recording, its late section always. */
  function AcceptedBy(t: Tape, s: Step, before: seq<Stamped>): seq<Stamped> {
    match s
    case DoStart(now, _) => if t.recording then before else [Stamped(Marker(now), now)]
    case DoWrite(e, _, now, _) => if t.recording then before + [Stamped(e, now)] else before
    case DoAppend(e, _, now, _) => before + [Stamped(e, now)]
    case _ => before
  }

  ghost predicate FiledAll(events: seq<Stamped>, entries: seq<Entry>) {
    |events| == |entries| && forall i :: 0 <= i < |events| ==> FiledAs(events[i], entries[i])
  }

  lemma FlushWritten(t: Tape, o: Outcome, now: real)
    ensures Flush(t, o, now).written == t.written
  {
  }

  lemma AppendWritten(t: Tape, e: Event, source: Option<TimeSource>, now: real, o: Outcome)
    ensures Append(t, e, source, now, o).written == t.written + [Filed(e, now * 1000.0)]
  {
    hide Flush, Filed;
    FlushWritten(Buffered(Note(t, e.payload.sourceId.GetOr("system"), source), Filed(e, now * 1000.0)), o, now);
  }

  lemma NextFiles(t: Tape, s: Step, before: seq<Stamped>)
    requires FiledAll(before, t.written)
    ensures FiledAll(AcceptedBy(t, s, before), Next(t, s).written)
  {
    hide Append, Flush, Filed, FiledAs, Marker;
    match s {
      case DoStart(now, o) =>
        AppendWritten(IDLE.(recording := true, lastFlush := now), Marker(now), None, now, o);
        FiledHolds(Marker(now), now);
      case DoWrite(e, source, now, o) =>
        AppendWritten(t, e, source, now, o);
        FiledHolds(e, now);
      case DoAppend(e, source, now, o) =>
        AppendWritten(t, e, source, now, o);
        FiledHolds(e, now);
      case DoFlush(now, o) => FlushWritten(t, o, now);
      case _ =>
    }
  }

  /** Over every interleaving of the sections: what is written are the events accepted, each under its own time. */
  lemma {:induction false} RunFiles(t: Tape, steps: seq<Step>, before: seq<Stamped>)
    requires FiledAll(before, t.written)
    ensures FiledAll(Accepted(t, steps, before), Run(t, steps).written)
    decreases |steps|
  {
    if steps == [] {
    } else {
      hide Next, FiledAll, AcceptedBy;
      NextFiles(t, steps[0], before);
      RunFiles(Next(t, steps[0]), steps[1..], AcceptedBy(t, steps[0], before));
    }
  }

  predicate HasData(entries: seq<Entry>) {
    exists i :: 0 <= i < |entries| && entries[i].isData
  }

  lemma SpanOfData(entries: seq<Entry>)
    ensures DataSpan(ToLog(entries)).Some? <==> HasData(entries)
  {
    var log := ToLog(entries);
    if DataSpan(log).Some? {
      var r :| r in log && r.isData;
    } else {
      forall i | 0 <= i < |entries| ensures !entries[i].isData {
        assert log[i] in log;
      }
    }
  }

  /** Until the connection closes, a source's last anchoring is either pending or in its table. */
  ghost predicate Noted(t: Tape) {
    forall id :: id in t.known ==>
      if id in t.pending then t.pending[id] == t.known[id]
      else id in t.conn.sources && t.conn.sources[id] == t.known[id]
  }

  /**
   While recording, log rows then buffer are the events written, in order, and no source's
   last anchoring is lost; what is committed is always a prefix of what is written.
   */
  ghost predicate Intact(t: Tape) {
    && t.disk.rows <= t.conn.rows <= t.written
    && t.pending.Keys <= t.known.Keys
    && (t.pending != map[] ==> t.buffer != [])
    && if t.recording then
         && t.conn.rows + t.buffer == t.written
         && Noted(t)
         && (t.conn.span.Some? ==> HasData(t.conn.rows))
       else
         t.conn == t.disk
  }

  lemma MoreData(a: seq<Entry>, b: seq<Entry>)
    requires HasData(a)
    ensures HasData(a + b)
  {
    var i :| 0 <= i < |a| && a[i].isData;
    assert (a + b)[i].isData;
  }

  lemma FlushIntact(t: Tape, o: Outcome, now: real)
    requires Intact(t)
    ensures Intact(Flush(t, o, now)) && Flush(t, o, now).recording == t.recording
  {
    if HasData(t.conn.rows) {
      MoreData(t.conn.rows, t.buffer);
    }
    hide HasData;
  }

  lemma BoundsIntact(t: Tape, insertOk: bool, commitOk: bool)
    requires Intact(t)
    ensures Intact(WriteBounds(t, insertOk, commitOk)) && WriteBounds(t, insertOk, commitOk).recording == t.recording
  {
    SpanOfData(t.conn.rows);
    hide HasData, ToLog;
  }

  /** The two statements of a write before the flush: note the source, buffer the row. */
  lemma NoteBufferIntact(t: Tape, sourceId: string, source: Option<TimeSource>, entry: Entry)
    requires Intact(t)
    ensures Intact(Buffered(Note(t, sourceId, source), entry))
    ensures Buffered(Note(t, sourceId, source), entry).recording == t.recording
  {
    hide HasData;
    assert t.conn.rows + (t.buffer + [entry]) == (t.conn.rows + t.buffer) + [entry];
  }

  lemma AppendIntact(t: Tape, e: Event, source: Option<TimeSource>, now: real, o: Outcome)
    requires Intact(t)
    ensures Intact(Append(t, e, source, now, o)) && Append(t, e, source, now, o).recording == t.recording
  {
    hide Intact, Flush, Note, Filed;
    var id := e.payload.sourceId.GetOr("system");
    NoteBufferIntact(t, id, source, Filed(e, now * 1000.0));
    FlushIntact(Buffered(Note(t, id, source), Filed(e, now * 1000.0)), o, now);
  }

  lemma NextIntact(t: Tape, s: Step)
    requires Intact(t)
    ensures Intact(Next(t, s))
  {
    hide Append, Flush;
    match s {
      case DoStart(now, o) => AppendIntact(IDLE.(recording := true, lastFlush := now), Marker(now), None, now, o);
      case DoWrite(e, source, now, o) => AppendIntact(t, e, source, now, o);
      case DoAppend(e, source, now, o) => AppendIntact(t, e, source, now, o);
      case DoFlush(now, o) => FlushIntact(t, o, now);
      case DoBounds(insertOk, commitOk) => BoundsIntact(t, insertOk, commitOk);
      case DoClose =>
    }
  }

  lemma {:induction false} RunIntact(t: Tape, steps: seq<Step>)
    requires Intact(t)
    ensures Intact(Run(t, steps))
    decreases |steps|
  {
    if steps == [] {
    } else {
      NextIntact(t, steps[0]);
      RunIntact(Next(t, steps[0]), steps[1..]);
    }
  }

  /** While the database works, no write leaves a full buffer, or one not flushed for the interval. */
  lemma BufferStaysShort(t: Tape, e: Event, source: Option<TimeSource>, now: real)
    requires t.recording
    ensures var w := Write(t, e, source, now, ALL_OK);
            |w.buffer| < 200 && (w.buffer != [] ==> now - w.lastFlush < 0.5)
            && (w.buffer == [] ==> w.disk == w.conn && w.pending == map[])
  {
  }

  // ---------------------------------------------------------------- what a file holds

  /** Every anchoring that was noted is in the file. */
  ghost predicate Anchored(t: Tape) {
    forall id :: id in t.known ==> id in t.disk.sources && t.disk.sources[id] == t.known[id]
  }

  /** The value is committed for the source. */
  predicate Committed(t: Tape, id: string, source: TimeSource) {
    id in t.disk.sources && t.disk.sources[id] == source
  }

  /**
   Closing keeps every anchoring exactly when those still pending, and those in the open
   transaction, are committed with the same value already.
   */
  lemma AnchoredExactly(t: Tape)
    requires Intact(t) && t.recording
    ensures Anchored(Close(t)) <==>
            && (forall id :: id in t.pending ==> Committed(t, id, t.pending[id]))
            && (forall id :: id in t.known && id !in t.pending ==> Committed(t, id, t.conn.sources[id]))
  {
    hide HasData;
  }

  /**
   A source that is new when its batch fails: the anchoring is inserted but the rows are
   not, nothing is committed, and a close loses it.
   */
  lemma FailedRowsLoseAnchoring(t: Tape, e: Event, source: TimeSource, now: real, commitOk: bool)
    requires Intact(t) && t.recording
    requires var id := e.payload.sourceId.GetOr("system");
             id !in t.known && id !in t.disk.sources
    requires FlushDue(Buffered(t, Filed(e, now * 1000.0)), now)
    ensures !Anchored(Close(Write(t, e, Some(source), now, Outcome(true, false, commitOk))))
  {
    hide Filed, HasData;
    var id := e.payload.sourceId.GetOr("system");
    assert id in Close(Write(t, e, Some(source), now, Outcome(true, false, commitOk))).known;
  }

  /** Every accepted event and every anchoring is committed, and the span is that of the events. */
  ghost predicate Kept(t: Tape) {
    && t.disk.rows == t.written
    && Anchored(t)
    && (DataSpan(ToLog(t.disk.rows)).Some? ==> t.disk.span == DataSpan(ToLog(t.disk.rows)))
  }

  // ---------------------------------------------------------------- a working database

  /** Other handlers' sections, answered without an error. */
  ghost predicate Clean(steps: seq<Step>) {
    forall s :: s in steps ==> (s.DoWrite? || s.DoAppend? || s.DoFlush?) && s.o == ALL_OK
  }

  /** Whatever is uncommitted is committed with the next batch. */
  ghost predicate WillCommit(t: Tape) {
    t.recording && Intact(t) && (t.buffer != [] || t.disk == t.conn)
  }

  ghost predicate Settled(t: Tape) {
    t.recording && Intact(t) && t.disk == t.conn
  }

  /** How long ago the last batch was committed, and how many rows wait for the next. */
  datatype Wait = Wait(since: real, held: nat)

  function WaitOf(t: Tape): Wait {
    Wait(t.lastFlush, |t.buffer|)
  }

  /** What a section does to the wait, by its time alone. */
  function Waited(w: Wait, s: Step): Wait {
    match s
    case DoWrite(_, _, now, _) => WaitedWrite(w, now)
    case DoAppend(_, _, now, _) => WaitedWrite(w, now)
    case DoFlush(now, _) => if w.held > 0 then Wait(now, 0) else w
    case _ => w
  }

  function WaitedWrite(w: Wait, now: real): Wait {
    if w.held + 1 >= BUFFER_SIZE || now - w.since >= FLUSH_INTERVAL then Wait(now, 0) else Wait(w.since, w.held + 1)
  }

  function WaitedAll(w: Wait, steps: seq<Step>): Wait
    decreases |steps|
  {
    if steps == [] then w else WaitedAll(Waited(w, steps[0]), steps[1..])
  }

  lemma FlushSettles(t: Tape, now: real)
    requires WillCommit(t)
    ensures var f := Flush(t, ALL_OK, now);
            && Settled(f) && f.buffer == [] && f.written == t.written
            && WaitOf(f) == Waited(WaitOf(t), DoFlush(now, ALL_OK))
  {
    FlushIntact(t, ALL_OK, now);
    hide HasData, Noted;
    assert t.conn.(sources := t.conn.sources + map[]) == t.conn;
  }

  lemma NoteKeeps(t: Tape, sourceId: string, source: Option<TimeSource>)
    ensures var n := Note(t, sourceId, source);
            n == t.(known := n.known, pending := n.pending)
  {
  }

  lemma AppendCommits(t: Tape, e: Event, source: Option<TimeSource>, now: real)
    requires t.recording && Intact(t)
    ensures var a := Append(t, e, source, now, ALL_OK);
            && WillCommit(a) && (t.disk == t.conn ==> Settled(a))
            && a.written == t.written + [Filed(e, now * 1000.0)]
            && WaitOf(a) == WaitedWrite(WaitOf(t), now)
            && a.conn.span == t.conn.span
  {
    var id, entry := e.payload.sourceId.GetOr("system"), Filed(e, now * 1000.0);
    AppendIntact(t, e, source, now, ALL_OK);
    hide Note, Filed, Intact;
    NoteKeeps(t, id, source);
    var b := Buffered(Note(t, id, source), entry);
    assert b.buffer != [];
  }

  lemma CleanStep(t: Tape, s: Step)
    requires Clean([s]) && WillCommit(t)
    ensures var n := Next(t, s);
            && WillCommit(n) && (Settled(t) ==> Settled(n))
            && WaitOf(n) == Waited(WaitOf(t), s) && n.conn.span == t.conn.span
  {
    assert s in [s];
    match s {
      case DoWrite(e, source, now, _) =>
        hide Append, Flush, Intact;
        AppendCommits(t, e, source, now);
      case DoAppend(e, source, now, _) =>
        hide Append, Flush, Intact;
        AppendCommits(t, e, source, now);
      case DoFlush(now, _) =>
        hide Intact;
        FlushSettles(t, now);
    }
  }

  lemma {:induction false} CleanRun(t: Tape, steps: seq<Step>)
    requires Clean(steps) && WillCommit(t)
    ensures var n := Run(t, steps);
            && WillCommit(n) && (Settled(t) ==> Settled(n))
            && WaitOf(n) == WaitedAll(WaitOf(t), steps) && n.conn.span == t.conn.span
    decreases |steps|
  {
    if steps == [] {
    } else {
      hide Next, WillCommit, Settled, Waited, WaitOf;
      assert steps[0] in steps && forall x :: x in steps[1..] ==> x in steps;
      assert Clean([steps[0]]) && Clean(steps[1..]);
      CleanStep(t, steps[0]);
      CleanRun(Next(t, steps[0]), steps[1..]);
    }
  }

  // ---------------------------------------------------------------- stopping

  /** What other handlers do between the sections of `stop`, and when it flushes. */
  datatype Between = Between(afterMark: seq<Step>, later: real, afterFlush: seq<Step>, afterBounds: seq<Step>)

  ghost predicate CleanBetween(b: Between) {
    Clean(b.afterMark) && Clean(b.afterFlush) && Clean(b.afterBounds)
  }

  /** The sections of `stop` up to the bounds. */
  function ToTheBounds(t: Tape, now: real, b: Between): Tape {
    var marked := Run(Write(t, Marker(now), None, now, ALL_OK), b.afterMark);
    Run(Flush(marked, ALL_OK, b.later), b.afterFlush)
  }

  function ToTheClose(t: Tape, now: real, b: Between): Tape {
    Run(WriteBounds(ToTheBounds(t, now, b), true, true), b.afterBounds)
  }

  /** The rows that wait at the bounds and at the close, by the times of the sections alone. */
  function WaitAtBounds(w: Wait, now: real, b: Between): Wait {
    WaitedAll(Waited(WaitedAll(WaitedWrite(w, now), b.afterMark), DoFlush(b.later, ALL_OK)), b.afterFlush)
  }

  function WaitAtClose(w: Wait, now: real, b: Between): Wait {
    WaitedAll(WaitAtBounds(w, now, b), b.afterBounds)
  }

  lemma ToTheBoundsSettled(t: Tape, now: real, b: Between)
    requires Intact(t) && t.recording && CleanBetween(b)
    ensures var n := ToTheBounds(t, now, b);
            Settled(n) && WaitOf(n) == WaitAtBounds(WaitOf(t), now, b)
  {
    hide Append, Flush, Run, Intact, Clean, WaitedWrite, WaitedAll, WaitOf;
    AppendCommits(t, Marker(now), None, now);
    var w := Write(t, Marker(now), None, now, ALL_OK);
    CleanRun(w, b.afterMark);
    FlushSettles(Run(w, b.afterMark), b.later);
    CleanRun(Flush(Run(w, b.afterMark), ALL_OK, b.later), b.afterFlush);
  }

  lemma BoundsSettled(t: Tape)
    requires Settled(t)
    ensures var n := WriteBounds(t, true, true);
            && Settled(n) && WaitOf(n) == WaitOf(t)
            && n.conn.rows == t.conn.rows && n.conn.span == DataSpan(ToLog(t.conn.rows))
  {
    BoundsIntact(t, true, true);
    SpanOfData(t.conn.rows);
    hide HasData, ToLog, Noted;
  }

  lemma ToTheCloseSettled(t: Tape, now: real, b: Between)
    requires Intact(t) && t.recording && CleanBetween(b)
    ensures var n := ToTheClose(t, now, b);
            && Settled(n) && WaitOf(n) == WaitAtClose(WaitOf(t), now, b)
            && n.conn.span == DataSpan(ToLog(ToTheBounds(t, now, b).conn.rows))
  {
    hide Append, Flush, Run, Intact, Clean, WaitedAll, WaitOf, ToLog, WriteBounds, ToTheBounds, WaitAtBounds;
    ToTheBoundsSettled(t, now, b);
    BoundsSettled(ToTheBounds(t, now, b));
    CleanRun(WriteBounds(ToTheBounds(t, now, b), true, true), b.afterBounds);
  }

  /** A settled tape with an empty buffer has committed everything but, perhaps, a newer span. */
  lemma CloseSettled(t: Tape)
    requires Settled(t)
    ensures Close(t).disk.rows == Close(t).written <==> t.buffer == []
    ensures t.buffer == [] ==> Anchored(Close(t))
    ensures Close(t).disk == t.conn
  {
    hide HasData;
    assert t.buffer != [] ==> |t.conn.rows| < |t.written|;
  }

  /**
   Stopping with a working database while other handlers write. By the times of the
   sections alone: every accepted event is in the file exactly when no row waits at the
   close, and the file is fit for a replay exactly when, besides, the events' span is the
   same at the bounds and at the close.
   */
  lemma StopExactly(t: Tape, now: real, b: Between)
    requires Intact(t) && t.recording && CleanBetween(b)
    ensures var s, waits := Close(ToTheClose(t, now, b)), WaitAtClose(WaitOf(t), now, b).held;
            && !s.recording
            && (s.disk.rows == s.written <==> waits == 0)
            && (Kept(s) <==>
                  waits == 0 &&
                  DataSpan(ToLog(ToTheBounds(t, now, b).conn.rows)) == DataSpan(ToLog(ToTheClose(t, now, b).conn.rows)))
  {
    hide ToLog, ToTheClose, ToTheBounds, WaitAtClose, Intact, CleanBetween, Anchored;
    var last := ToTheClose(t, now, b);
    ToTheCloseSettled(t, now, b);
    CloseSettled(last);
    SpanAtBounds(t, now, b);
  }

  /** Rows are only added between the bounds and the close: data at the bounds is data at the close. */
  lemma SpanAtBounds(t: Tape, now: real, b: Between)
    requires Intact(t) && t.recording && CleanBetween(b)
    ensures DataSpan(ToLog(ToTheBounds(t, now, b).conn.rows)).Some? ==>
            DataSpan(ToLog(ToTheClose(t, now, b).conn.rows)).Some?
  {
    hide ToLog, ToTheClose, ToTheBounds, CleanBetween, Noted, HasData;
    ToTheCloseSettled(t, now, b);
    SpanOfData(ToTheClose(t, now, b).conn.rows);
  }

  /** Without a write after the flush nothing waits, whatever is written between the end marker and the flush. */
  lemma StopIsComplete(t: Tape, now: real, afterMark: seq<Step>, later: real)
    requires Intact(t) && t.recording && Clean(afterMark)
    ensures Kept(Close(ToTheClose(t, now, Between(afterMark, later, [], []))))
  {
    hide Intact, Kept, ToLog, WaitedWrite;
    var b := Between(afterMark, later, [], []);
    StopExactly(t, now, b);
    assert WaitAtClose(WaitOf(t), now, b).held == 0;
    BoundsKeepRows(ToTheBounds(t, now, b));
  }

  lemma BoundsKeepRows(t: Tape)
    ensures WriteBounds(t, true, true).conn.rows == t.conn.rows && WriteBounds(t, true, true).written == t.written
  {
  }

  /** `Stop` is the case in which no other handler does anything. */
  lemma StopAlone(t: Tape, now: real)
    requires Intact(t) && t.recording
    ensures var s := Stop(t, now, ALL_OK, ALL_OK, true, true);
            && s == Close(ToTheClose(t, now, Between([], now, [], [])))
            && s.written == t.written + [Filed(Marker(now), now * 1000.0)]
  {
    hide Append, Flush, Intact, ToLog, Filed, WriteBounds;
    var w := Write(t, Marker(now), None, now, ALL_OK);
    AppendCommits(t, Marker(now), None, now);
    FlushSettles(w, now);
    BoundsKeepRows(Flush(w, ALL_OK, now));
  }

  /**
   One write that comes between the flush of `stop` and its close survives exactly when it
   is old enough to flush itself; otherwise it stays in the buffer, and is lost without an
   error.
   */
  lemma WriteBeforeClose(t: Tape, e: Event, source: Option<TimeSource>, now: real, insertOk: bool, commitOk: bool)
    requires Settled(t) && t.buffer == []
    ensures var s := Close(WriteBounds(Write(t, e, source, now, ALL_OK), insertOk, commitOk));
            s.disk.rows == s.written <==> now - t.lastFlush >= FLUSH_INTERVAL
  {
    hide Filed, Append, ToLog, Noted, HasData;
    AppendCommits(t, e, source, now);
    var w := Write(t, e, source, now, ALL_OK);
    assert w.conn.rows + w.buffer == w.written;
    assert w.disk.rows == w.conn.rows;
  }

  /** A write whose check came before the close and whose section comes after it is lost. */
  lemma WriteAfterClose(t: Tape, e: Event, source: Option<TimeSource>, now: real, o: Outcome)
    requires Intact(t) && !t.recording
    ensures var s := Append(t, e, source, now, o); s.disk == t.disk && s.disk.rows != s.written
  {
    hide Filed, Note;
    NoteKeeps(t, e.payload.sourceId.GetOr("system"), source);
    assert |t.disk.rows| <= |t.written|;
  }

  /**
   Whatever the database answers to the write that closes the session, with the later
   statements succeeding and no other write: events are lost exactly when that write
   flushed its batch but could not commit it, and the log holds no DATA_STREAM row. The
   final flush then finds nothing to do, and neither do the bounds.
   */
  lemma FailedLastCommit(t: Tape, now: real, o: Outcome)
    requires Intact(t) && t.recording
    ensures var s := Stop(t, now, o, ALL_OK, true, true);
            s.disk.rows == s.written <==>
              || !FlushDue(t.(buffer := t.buffer + [Filed(Marker(now), now * 1000.0)]), now)
              || (t.pending != map[] && !o.sourcesOk) || !o.rowsOk || o.commitOk
              || DataSpan(ToLog(s.written)).Some?
  {
    hide Filed, ToLog, Intact, Flush, Close, WriteBounds;
    var b := Buffered(t, Filed(Marker(now), now * 1000.0));
    var w := Write(t, Marker(now), None, now, o);
    NoteBufferIntact(t, "system", None, Filed(Marker(now), now * 1000.0));
    assert w == if FlushDue(b, now) then Flush(b, o, now) else b;
    AppendIntact(t, Marker(now), None, now, o);
    RestOfStop(w, now);
    if FlushDue(b, now) {
      MarkerFlush(b, o, now);
    }
  }

  /** A flush of a non-empty buffer that answers `o`. */
  lemma MarkerFlush(b: Tape, o: Outcome, now: real)
    requires Intact(b) && b.recording && b.buffer != []
    ensures var f := Flush(b, o, now);
            (f.buffer == [] && f.pending == map[] && f.disk.rows != f.conn.rows) <==>
              (b.pending == map[] || o.sourcesOk) && o.rowsOk && !o.commitOk
  {
    hide HasData, Noted;
    assert |b.disk.rows| <= |b.conn.rows|;
  }

  /** What the flush and the bounds of `stop` still save, when they succeed. */
  lemma RestOfStop(w: Tape, now: real)
    requires Intact(w) && w.recording
    ensures var s := Close(WriteBounds(Flush(w, ALL_OK, now), true, true));
            && s.written == w.written
            && (s.disk.rows == s.written <==>
                  !(w.buffer == [] && w.pending == map[] &&
                    w.disk.rows != w.conn.rows) || DataSpan(ToLog(w.written)).Some?)
  {
    hide ToLog, DataSpan, HasData, Noted;
    var f := Flush(w, ALL_OK, now);
    FlushIntact(w, ALL_OK, now);
    assert f.buffer == [] && f.conn.rows == f.written == w.written;
    assert (w.buffer == [] && w.pending == map[]) ==> f == w;
    assert !(w.buffer == [] && w.pending == map[]) ==> f.disk.rows == f.conn.rows;
  }

  // ---------------------------------------------------------------- the recorder object

  class SessionRecorder {
    var recording: bool
    var database: Db
    var committed: Db
    var buffer: seq<Entry>
    var pendingSources: map<string, TimeSource>
    var knownSources: map<string, TimeSource>
    var lastFlush: real
    ghost var written: seq<Entry>

    ghost function Abs(): Tape
      reads this
    {
      Tape(recording, database, committed, buffer, pendingSources, knownSources, lastFlush, written)
    }

    constructor ()
      ensures Abs() == IDLE
    {
      recording, database, committed, buffer, written := false, NO_ROWS, NO_ROWS, [], [];
      pendingSources, knownSources, lastFlush := map[], map[], 0.0;
    }

    method StartSession(now: real, o: Outcome) returns (started: bool)
      modifies this
      ensures started == !old(recording)
      ensures Abs() == Start(old(Abs()), now, o)
      ensures started ==>
        && recording && written == buffer == [Entry(now * 1000.0, false, NO_PAYLOAD)] && lastFlush == now
        && database == committed == Db([], map[], None) && knownSources == pendingSources == map[]
    {
      hide Flush;
      if recording {
        return false;
      }
      OpenTape(now);
      WriteEvent(Marker(now), None, now, o);
      return true;
    }

    /** A new database and empty buffers. */
    method OpenTape(now: real)
      modifies this
      ensures Abs() == IDLE.(recording := true, lastFlush := now)
    {
      recording, database, committed, buffer, written := true, NO_ROWS, NO_ROWS, [], [];
      pendingSources, knownSources, lastFlush := map[], map[], now;
    }

    method WriteEvent(e: Event, source: Option<TimeSource>, now: real, o: Outcome)
      modifies this
      ensures Abs() == Write(old(Abs()), e, source, now, o)
      ensures !old(recording) ==> Abs() == old(Abs())
      ensures old(recording) ==> |written| == |old(written)| + 1 && old(written) == written[..|old(written)|]
      ensures old(recording) ==> FiledAs(Stamped(e, now), written[|written| - 1])
    {
      hide Append, FiledAs;
      if !recording {
        return;
      }
      AppendLocked(e, source, now, o);
    }

    /** The first half of the locked section: note the source, buffer the row. */
    method BufferEvent(e: Event, source: Option<TimeSource>, now: real)
      modifies this`knownSources, this`pendingSources, this`buffer, this`written
      ensures Abs() == Buffered(Note(old(Abs()), e.payload.sourceId.GetOr("system"), source), Filed(e, now * 1000.0))
      ensures |written| == |old(written)| + 1 && old(written) == written[..|old(written)|]
      ensures FiledAs(Stamped(e, now), written[|written| - 1])
      ensures buffer == old(buffer) + [written[|written| - 1]]
      ensures source.None? ==> knownSources == old(knownSources)
      ensures source.Some? ==> knownSources == old(knownSources)[e.payload.sourceId.GetOr("system") := source.value]
    {
      hide FiledAs;
      FiledHolds(e, now);
      var entry := Entry(EventTime(e, now * 1000.0), e.isData, e.payload);
      var sourceId := e.payload.sourceId.GetOr("system");
      if source.Some? && !(sourceId in knownSources && knownSources[sourceId] == source.value) {
        knownSources := knownSources[sourceId := source.value];
        pendingSources := pendingSources[sourceId := source.value];
      }
      buffer := buffer + [entry];
      written := written + [entry];
    }

    /** The part of `write` under the lock. */
    method AppendLocked(e: Event, source: Option<TimeSource>, now: real, o: Outcome)
      modifies this
      ensures Abs() == Append(old(Abs()), e, source, now, o)
      ensures |written| == |old(written)| + 1 && old(written) == written[..|old(written)|]
      ensures FiledAs(Stamped(e, now), written[|written| - 1])
      ensures source.None? ==> knownSources == old(knownSources)
      ensures source.Some? ==> knownSources == old(knownSources)[e.payload.sourceId.GetOr("system") := source.value]
      ensures |old(buffer)| < 199 && now - old(lastFlush) < 0.5 ==>
        && buffer == old(buffer) + [written[|written| - 1]]
        && database == old(database) && committed == old(committed)
      ensures recording && o == ALL_OK && (|old(buffer)| >= 199 || now - old(lastFlush) >= 0.5) ==>
                buffer == [] && committed.rows == old(database).rows + old(buffer) + [written[|written| - 1]]
    {
      hide Flush, Note, Filed, FiledAs;
      BufferEvent(e, source, now);
      if |buffer| >= BUFFER_SIZE || (buffer != [] && now - lastFlush >= FLUSH_INTERVAL) {
        FlushLocked(o, now);
      }
    }

    method FlushLocked(o: Outcome, now: real)
      modifies this`database, this`committed, this`buffer, this`pendingSources, this`lastFlush
      ensures Abs() == Flush(old(Abs()), o, now)
      ensures !recording || (old(buffer) == [] && old(pendingSources) == map[]) ==> Abs() == old(Abs())
      ensures recording && o == ALL_OK && (old(buffer) != [] || old(pendingSources) != map[]) ==>
        && buffer == [] && pendingSources == map[] && lastFlush == now && committed == database
        && database.rows == old(database).rows + old(buffer)
        && database.sources == old(database).sources + old(pendingSources)
      ensures !o.commitOk ==> committed == old(committed) && lastFlush == old(lastFlush)
      ensures !o.rowsOk && old(buffer) != [] ==>
                buffer == old(buffer) && database.rows == old(database).rows && committed == old(committed)
      ensures !o.sourcesOk && old(pendingSources) != map[] ==> Abs() == old(Abs())
    {
      if !recording {
        return;
      }
      if buffer == [] && pendingSources == map[] {
        return;
      }
      if pendingSources != map[] {
        if !o.sourcesOk {
          return;
        }
        database := database.(sources := database.sources + pendingSources);
        pendingSources := map[];
      }
      if buffer != [] {
        if !o.rowsOk {
          return;
        }
        database := database.(rows := database.rows + buffer);
        buffer := [];
      }
      if o.commitOk {
        committed, lastFlush := database, now;
      }
    }

    method WriteTimeBounds(insertOk: bool, commitOk: bool)
      modifies this`database, this`committed
      ensures Abs() == WriteBounds(old(Abs()), insertOk, commitOk)
    {
      if !recording {
        return;
      }
      var span := DataSpan(ToLog(database.rows));
      if span.None? || !insertOk {
        return;
      }
      database := database.(span := span);
      if commitOk {
        committed := database;
      }
    }

    method CloseConnection()
      modifies this`recording, this`database
      ensures Abs() == Close(old(Abs()))
      ensures !recording && committed == old(committed) && (old(recording) ==> database == committed)
    {
      if recording {
        recording, database := false, committed;
      }
    }

    /** `stop` while no other handler writes. */
    method StopSession(now: real, writeOutcome: Outcome, flushOutcome: Outcome, insertOk: bool, commitOk: bool)
      returns (stopped: bool)
      modifies this
      ensures stopped == old(recording)
      ensures Abs() == Stop(old(Abs()), now, writeOutcome, flushOutcome, insertOk, commitOk)
      ensures stopped ==> !recording && written == old(written) + [Entry(now * 1000.0, false, NO_PAYLOAD)]
    {
      hide Write, Flush, WriteBounds;
      if !recording {
        return false;
      }
      WriteEvent(Marker(now), None, now, writeOutcome);
      FlushLocked(flushOutcome, now);
      WriteTimeBounds(insertOk, commitOk);
      CloseConnection();
      return true;
    }
  }
}
