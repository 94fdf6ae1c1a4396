/**
 End to end: what a recording wrote is what an uninterrupted replay of its file sends.
 */
module RecordThenReplay {
  import opened Numbers
  import opened Options
  import opened SessionLog
  import Recorder
  import opened Replayer

  /** Every recorded row that is data, in (event time, seq) order. */
  function WholeRecording(log: Log): seq<Row> {
    DataRows(Ordered(log))
  }

  lemma {:induction false} WithinEverything(rows: seq<Row>, lo: real, hi: real)
    requires forall r :: r in rows && r.isData ==> lo <= r.eventTime < hi
    ensures DataRows(Within(rows, lo, hi)) == DataRows(rows)
  {
    if rows == [] {
    } else {
      assert rows[0] in rows;
      WithinEverything(rows[1..], lo, hi);
      var w := Within(rows[1..], lo, hi);
      assert ([rows[0]] + w)[1..] == w;
    }
  }

  lemma OrderedMembers(log: Log, r: Row)
    ensures r in Ordered(log) <==> r in log
  {
    OrderedHolds(log);
    assert r in Ordered(log) <==> r in multiset(Ordered(log));
    assert r in log <==> r in multiset(log);
  }

  /** A window from the first event on is the whole recording exactly when it ends past the last. */
  lemma WindowIsWhole(log: Log, span: Span, hi: real)
    requires DataSpan(log) == Some(span)
    ensures Select(log, span.first, hi) == WholeRecording(log) <==> span.last < hi
  {
    forall r ensures r in Ordered(log) <==> r in log {
      OrderedMembers(log, r);
    }
    if span.last < hi {
      WithinEverything(Ordered(log), span.first, hi);
    } else {
      var last :| last in log && last.isData && last.eventTime == span.last;
      SelectMembers(log, span.first, hi, last);
      WholeMembers(log, last);
    }
  }

  lemma WholeMembers(log: Log, r: Row)
    ensures r in WholeRecording(log) <==> r in log && r.isData
  {
    OrderedMembers(log, r);
    DataMembers(Ordered(log), r);
  }

  lemma {:induction false} DataMembers(rows: seq<Row>, r: Row)
    ensures r in DataRows(rows) <==> r in rows && r.isData
  {
    if rows == [] {
    } else {
      DataMembers(rows[1..], r);
      assert r in rows <==> r == rows[0] || r in rows[1..];
    }
  }

  /**
   The whole recording, independently of any replay: sorted by (event time, seq), and as
   many copies of each DATA_STREAM row as the table holds.
   */
  lemma WholeRecordingExact(log: Log)
    ensures Sorted(WholeRecording(log))
    ensures forall r :: multiset(WholeRecording(log))[r] == if r.isData then multiset(log)[r] else 0
  {
    var rows := WholeRecording(log);
    match DataSpan(log) {
      case Some(span) =>
        var hi := span.last + 1.0;
        WindowIsWhole(log, span, hi);
        SelectExact(log, span.first, hi);
        forall r: Row ensures multiset(rows)[r] == if r.isData then multiset(log)[r] else 0 {
          if r.isData && !(span.first <= r.eventTime < hi) {
            assert r !in log;
          }
        }
      case None =>
        forall r: Row ensures r !in rows && (r.isData ==> r !in log) {
          WholeMembers(log, r);
        }
        assert forall i :: 0 <= i < |rows| ==> rows[i] in rows;
    }
  }

  // ---------------------------------------------------------------- an uninterrupted play

  /** The state right after the play command of a freshly loaded session is drained. */
  ghost predicate StartsPlaying(p: Player, session: Session, span: Span)
  {
    && p.conn == Some(session.log) && p.active == Some(session)
    && p.running && !p.paused && p.queue == []
    && p.start == span.first && p.duration == span.last - span.first > 0.0
    && p.cursor == 0.0 && Base(p.trace) == 0.0 && Emitted(p.trace) == []
    && 0.1 <= p.speed <= 10.0
  }

  /** Loading a valid session into a player that does not run, then playing it, starts at the top. */
  lemma LoadThenPlay(p: Player, session: Session, r: Reading)
    requires Rested(p) && !p.running && p.queue == [] && 0.1 <= p.speed <= 10.0
    requires LoadOutcome(session) == LoadOk
    requires TimeBounds(session).value.first < TimeBounds(session).value.last
    ensures var q := Next(Next(p, Load(session)), Control(Play));
            && Connect(q).conn.Some? && q.queue == [Play]
            && StartsPlaying(Drain(Connect(q), [r]), session, TimeBounds(session).value)
  {
    hide Emitted, Base;
    var l := Next(p, Load(session));
    AppendMark(p.trace, Loaded(l.duration));
    var q := Next(l, Control(Play));
    assert q.queue == [Play];
    var c := Connect(q);
    var a := Apply(c.(queue := []), Play, r);
    AppendPlain(c.trace, [Status("playing")]);
    assert [Play][1..] == [];
    assert Drain(c, [r]) == Drain(a, [r][1..]);
    assert [r][1..] == [];
  }

  /** Ticks of one play: forward clock, and not at the end before the last one. */
  ghost predicate Uninterrupted(p: Player, ticks: seq<Reading>)
    requires p.conn.Some?
    decreases |ticks|
  {
    ticks != [] ==>
      var q := PlayOn(p, ticks[..|ticks| - 1]);
      && Uninterrupted(p, ticks[..|ticks| - 1])
      && !AtEnd(q) && q.lastWall <= ticks[|ticks| - 1].wall
  }

  lemma {:induction false} PlayOnConsistent(p: Player, session: Session, span: Span, ticks: seq<Reading>)
    requires StartsPlaying(p, session, span) && Uninterrupted(p, ticks)
    ensures var q := PlayOn(p, ticks);
            Consistent(q, q.cursor) && Base(q.trace) == 0.0
    decreases |ticks|
  {
    hide Select, EmitRange, Emitted, Base, Step;
    if ticks == [] {
      SelectEmpty(session.log, p.start, p.start);
    } else {
      var before, last := ticks[..|ticks| - 1], ticks[|ticks| - 1];
      PlayOnConsistent(p, session, span, before);
      var q := PlayOn(p, before);
      TickConsistent(q, last, q.cursor);
      var next := q.cursor + Step(q, last);
      AppendRange(q.trace, q.conn.value, q.start, q.cursor, next, last.emit);
      AppendPlain(q.trace + EmitRange(q.conn.value, q.start, q.cursor, next, last.emit), [Progress(next, q.duration)]);
    }
  }

  /**
   An uninterrupted play that reaches the end stops by itself, and it has then sent every
   recorded data row, each once and in order, exactly when its last tick ran past the end;
   a tick that lands on the end leaves out the rows of the last instant.
   */
  lemma PlayThrough(p: Player, session: Session, span: Span, ticks: seq<Reading>, tick: Reading, ok: bool)
    requires StartsPlaying(p, session, span) && DataSpan(session.log) == Some(span)
    requires Uninterrupted(p, ticks) && AtEnd(PlayOn(p, ticks))
    ensures var last := PlayOn(p, ticks);
            var q := Next(last, Pass([], tick, ok));
            && q.paused && q.cursor == q.duration
            && (Emitted(q.trace) == WholeRecording(session.log) <==> last.cursor > last.duration)
  {
    hide Select, Emitted, Base, DataRows, PlayOn, WholeRecording, Uninterrupted, Next, DataSpan;
    var last := PlayOn(p, ticks);
    PlayOnConsistent(p, session, span, ticks);
    StopsAtEnd(last, tick, ok);
    WindowIsWhole(session.log, span, last.start + last.cursor);
  }

  lemma StopsAtEnd(p: Player, tick: Reading, ok: bool)
    requires p.conn.Some? && p.active.Some? && p.running && !p.paused && p.queue == [] && AtEnd(p)
    ensures var q := Next(p, Pass([], tick, ok));
            q.paused && q.cursor == p.duration && q.duration == p.duration && Emitted(q.trace) == Emitted(p.trace)
  {
    hide Emitted, Base;
    AppendPlain(p.trace, [Status("stopped"), Progress(p.duration, p.duration)]);
    assert Next(p, Pass([], tick, ok)) == ClampToEnd(p);
  }

  /**
   A play does reach the end: exactly when the time between the play command and the last
   tick, times the speed, covers the duration; and it runs past it exactly when that is more.
   */
  lemma PlayEndsOnTime(p: Player, session: Session, span: Span, ticks: seq<Reading>)
    requires StartsPlaying(p, session, span) && ticks != []
    ensures AtEnd(PlayOn(p, ticks)) <==> Step(p, ticks[|ticks| - 1]) >= span.last - span.first
    ensures PlayOn(p, ticks).cursor > PlayOn(p, ticks).duration <==>
            Step(p, ticks[|ticks| - 1]) > span.last - span.first
  {
    hide PlayOn, Step;
    CursorIsElapsed(p, ticks);
  }

  /** One late enough tick is an uninterrupted play to the end, so such plays exist for every session. */
  lemma OneTickPlaysThrough(p: Player, session: Session, span: Span, r: Reading)
    requires StartsPlaying(p, session, span) && r.wall > p.lastWall + (span.last - span.first)
    ensures Uninterrupted(p, [r]) && PlayOn(p, [r]).cursor > PlayOn(p, [r]).duration
  {
    assert [r][..0] == [] && [r][|[r]| - 1] == r;
    assert Uninterrupted(p, [r]);
    hide PlayOn, Uninterrupted, Step;
    StepCoversTime(p, r);
    PlayEndsOnTime(p, session, span, [r]);
  }

  lemma StepCoversTime(p: Player, r: Reading)
    requires p.speed >= 0.1 && r.wall >= p.lastWall
    ensures Step(p, r) >= r.wall - p.lastWall
  {
    var d := r.wall - p.lastWall;
    assert d * 1000.0 * (p.speed - 0.1) >= 0.0;
  }

  // ---------------------------------------------------------------- recorder and replayer

  /** What the written events are to the replayer. */
  function Written(t: Recorder.Tape): Log {
    Recorder.ToLog(t.written)
  }

  /**
   The rows are the data events of the list, told by the number of their row: each data event
   once, under its own time, ordered by these times and, at equal times, as in the list.
   */
  ghost predicate Chronicle(events: seq<Recorder.Stamped>, rows: seq<Row>) {
    && (forall r :: r in rows ==>
          && 1 <= r.seqNo <= |events| && events[r.seqNo - 1].event.isData
          && Recorder.FiledAs(events[r.seqNo - 1], Recorder.Entry(r.eventTime, r.isData, r.payload)))
    && (forall i :: 0 <= i < |events| && events[i].event.isData ==> exists r :: r in rows && r.seqNo == i + 1)
    && forall a, b :: 0 <= a < b < |rows| ==>
         rows[a].eventTime < rows[b].eventTime
         || (rows[a].eventTime == rows[b].eventTime && rows[a].seqNo < rows[b].seqNo)
  }

  lemma CountOfPair<T>(xs: seq<T>, a: nat, b: nat)
    requires a < b < |xs| && xs[a] == xs[b]
    ensures multiset(xs)[xs[a]] >= 2
  {
    var before, rest := xs[..b], xs[b..];
    assert xs == before + rest;
    assert before[a] in multiset(before) && rest[0] in multiset(rest);
  }

  lemma {:induction false} CountOfDistinct(log: Log, r: Row)
    requires Numbered(log)
    ensures multiset(log)[r] <= 1
  {
    if r in log {
      var i :| 0 <= i < |log| && log[i] == r;
      assert log == log[..i] + [r] + log[i + 1..];
      assert r !in log[..i] && r !in log[i + 1..];
      assert multiset(log) == multiset(log[..i]) + multiset{r} + multiset(log[i + 1..]);
    }
  }

  lemma WholeRecordingStrict(log: Log, a: nat, b: nat)
    requires Numbered(log) && a < b < |WholeRecording(log)|
    ensures var rows := WholeRecording(log);
            rows[a].eventTime < rows[b].eventTime
            || (rows[a].eventTime == rows[b].eventTime && rows[a].seqNo < rows[b].seqNo)
  {
    hide WholeRecording;
    var rows := WholeRecording(log);
    WholeRecordingExact(log);
    assert rows[a] in rows && rows[b] in rows;
    WholeMembers(log, rows[a]);
    WholeMembers(log, rows[b]);
    if rows[a].seqNo == rows[b].seqNo {
      assert rows[a] == rows[b];
      CountOfPair(rows, a, b);
      CountOfDistinct(log, rows[a]);
    }
  }

  /** The whole recording in the terms of the events themselves. */
  lemma WholeRecordingIsChronicle(events: seq<Recorder.Stamped>, entries: seq<Recorder.Entry>)
    requires Recorder.FiledAll(events, entries)
    ensures Chronicle(events, WholeRecording(Recorder.ToLog(entries)))
  {
    hide WholeRecording, Recorder.FiledAs;
    var log := Recorder.ToLog(entries);
    var rows := WholeRecording(log);
    forall r: Row ensures r in rows <==> r in log && r.isData {
      WholeMembers(log, r);
    }
    forall i | 0 <= i < |events| && events[i].event.isData ensures exists r :: r in rows && r.seqNo == i + 1 {
      FiledIsData(events[i], entries[i]);
      assert log[i] in log && log[i].seqNo == i + 1;
    }
    forall r | r in rows
      ensures 1 <= r.seqNo <= |events| && events[r.seqNo - 1].event.isData
      ensures Recorder.FiledAs(events[r.seqNo - 1], Recorder.Entry(r.eventTime, r.isData, r.payload))
    {
      var i :| 0 <= i < |log| && log[i] == r;
      assert entries[i] == Recorder.Entry(r.eventTime, r.isData, r.payload);
      FiledIsData(events[i], entries[i]);
    }
    forall a, b | 0 <= a < b < |rows|
      ensures rows[a].eventTime < rows[b].eventTime
              || (rows[a].eventTime == rows[b].eventTime && rows[a].seqNo < rows[b].seqNo)
    {
      WholeRecordingStrict(log, a, b);
    }
  }

  lemma FiledIsData(s: Recorder.Stamped, x: Recorder.Entry)
    requires Recorder.FiledAs(s, x)
    ensures s.event.isData == x.isData
  {
  }

  /** Loaded into a player that does not run, the play command drained at `r`, ticked past the end. */
  ghost predicate FullPlay(p: Player, session: Session, r: Reading, d: Player, ticks: seq<Reading>)
  {
    && Rested(p) && !p.running && p.queue == [] && 0.1 <= p.speed <= 10.0
    && (var q := Next(Next(p, Load(session)), Control(Play));
        Connect(q).conn.Some? && q.queue == [Play] && d == Drain(Connect(q), [r]))
    && d.conn.Some? && Uninterrupted(d, ticks) && PlayOn(d, ticks).cursor > PlayOn(d, ticks).duration
  }

  /**
   Load the file of a recording that kept everything and play it to the end: the events
   written come out, all DATA_STREAM ones and only they, each once, ordered by event time
   and, at equal times, by the order they were written in.
   */
  lemma RecordedThenReplayed(t: Recorder.Tape, span: Span, p: Player, r: Reading, d: Player,
                             ticks: seq<Reading>, tick: Reading, ok: bool)
    requires Recorder.Kept(t) && DataSpan(Written(t)) == Some(span) && span.first < span.last
    requires LoadOutcome(Recorder.File(t)) == LoadOk && FullPlay(p, Recorder.File(t), r, d, ticks)
    ensures d.queue == []
    ensures Emitted(Next(PlayOn(d, ticks), Pass([], tick, ok)).trace) == WholeRecording(Written(t))
    ensures forall events :: Recorder.FiledAll(events, t.written) ==>
              Chronicle(events, Emitted(Next(PlayOn(d, ticks), Pass([], tick, ok)).trace))
  {
    hide Emitted, Base, Select, DataRows, PlayOn, WholeRecording, Chronicle, Recorder.FiledAll;
    forall events | Recorder.FiledAll(events, t.written) ensures Chronicle(events, WholeRecording(Written(t))) {
      WholeRecordingIsChronicle(events, t.written);
    }
    var file := Recorder.File(t);
    assert file.log == Written(t) && TimeBounds(file) == Some(span);
    LoadThenPlay(p, file, r);
    PlayOnConsistent(d, file, span, ticks);
    PlayThrough(d, file, span, ticks, tick, ok);
  }

  /**
   The same for the whole life of a recorder, whatever the order of its sections: what a play
   of the kept file sends are the data events accepted since the last start, each once, by
   their own times.
   */
  lemma AcceptedThenReplayed(steps: seq<Recorder.Step>, span: Span, p: Player, r: Reading, d: Player,
                             ticks: seq<Reading>, tick: Reading, ok: bool)
    requires var t := Recorder.Run(Recorder.IDLE, steps);
             && Recorder.Kept(t) && DataSpan(Written(t)) == Some(span) && span.first < span.last
             && LoadOutcome(Recorder.File(t)) == LoadOk && FullPlay(p, Recorder.File(t), r, d, ticks)
    ensures d.queue == []
    ensures Chronicle(Recorder.Accepted(Recorder.IDLE, steps, []),
                      Emitted(Next(PlayOn(d, ticks), Pass([], tick, ok)).trace))
  {
    hide Emitted, PlayOn, WholeRecording, Chronicle, FullPlay, Recorder.Run, Recorder.Accepted, Recorder.Kept;
    Recorder.RunFiles(Recorder.IDLE, steps, []);
    RecordedThenReplayed(Recorder.Run(Recorder.IDLE, steps), span, p, r, d, ticks, tick, ok);
  }

  /**
   And for a recording stopped while other handlers write: the whole recording comes out
   when, by the times of their sections, no row waits at the close, and the span of the
   events does not grow after the bounds. Otherwise, by `Recorder.StopExactly`, the file
   lacks an event or its span is not theirs.
   */
  lemma StoppedThenReplayed(t: Recorder.Tape, now: real, b: Recorder.Between, s: Recorder.Tape, span: Span,
                            p: Player, r: Reading, d: Player, ticks: seq<Reading>, tick: Reading, ok: bool)
    requires Recorder.Intact(t) && t.recording && Recorder.CleanBetween(b)
    requires s == Recorder.Close(Recorder.ToTheClose(t, now, b))
    requires Recorder.WaitAtClose(Recorder.WaitOf(t), now, b).held == 0
    requires DataSpan(Recorder.ToLog(Recorder.ToTheBounds(t, now, b).conn.rows)) == Some(span)
    requires DataSpan(Written(s)) == Some(span) && span.first < span.last
    requires LoadOutcome(Recorder.File(s)) == LoadOk && FullPlay(p, Recorder.File(s), r, d, ticks)
    ensures Emitted(Next(PlayOn(d, ticks), Pass([], tick, ok)).trace) == WholeRecording(Written(s))
    ensures forall events :: Recorder.FiledAll(events, s.written) ==>
              Chronicle(events, Emitted(Next(PlayOn(d, ticks), Pass([], tick, ok)).trace))
    ensures d.queue == []
  {
    hide Chronicle, Emitted, PlayOn, WholeRecording, FullPlay, DataSpan, Recorder.FiledAll, Recorder.Kept,
         Recorder.ToTheClose, Recorder.ToTheBounds, Recorder.Intact, Recorder.CleanBetween, Recorder.WaitAtClose,
         Recorder.ToLog;
    Recorder.StopExactly(t, now, b);
    SettledRows(t, now, b, s);
    RecordedThenReplayed(s, span, p, r, d, ticks, tick, ok);
  }

  lemma SettledRows(t: Recorder.Tape, now: real, b: Recorder.Between, s: Recorder.Tape)
    requires Recorder.Intact(t) && t.recording && Recorder.CleanBetween(b)
    requires s == Recorder.Close(Recorder.ToTheClose(t, now, b))
    ensures s.disk.rows == Recorder.ToTheClose(t, now, b).conn.rows
  {
    hide Recorder.Intact, Recorder.ToTheClose, Recorder.CleanBetween;
    Recorder.ToTheCloseSettled(t, now, b);
    Recorder.CloseSettled(Recorder.ToTheClose(t, now, b));
  }
}
