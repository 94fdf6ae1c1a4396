/**
 `SessionReplayer`: the command queue, the cursor and the emitted stream. `Player` is the
 state of the replay thread; `Pass` is one pass of its main loop, each `time.time()` call
 being an input. The class below runs the same steps in place.
 */
module Replayer {
  import opened Numbers
  import opened Options
  import opened SessionLog

  const MIN_VALID_MS := 1577836800000.0
  const MAX_VALID_MS := 4102444800000.0
  const SEEK_PREROLL_MS := 2000.0

  /** A seek target of `None` stands for a missing, non-numeric or non-finite value. */
  datatype Command = Unload | Stop | Pause | Play | Seek(target: Option<real>)

  /** Clock readings in seconds: the one kept in `last_wall_clock` and the one of `_emit_range`. */
  datatype Reading = Reading(wall: real, emit: real) {
    /** How much later the emission read the clock, in milliseconds. */
    function Lag(): real {
      (emit - wall) * 1000.0
    }
  }

  datatype Out =
    | Loaded(duration: real)
    | Reset(time: real)
    | Data(row: Row, payload: Payload)
    | Progress(time: real, duration: real)
    | Status(state: string)

  datatype LoadResult = LoadOk | NotFound | DatabaseError | NoValidData | Inconsistent

  datatype Player = Player(
    conn: Option<Log>,
    active: Option<Session>,
    start: real,
    duration: real,
    cursor: real,
    paused: bool,
    running: bool,
    speed: real,
    lastWall: real,
    queue: seq<Command>,
    trace: seq<Out>)

  /**
   `LoadRefused` is a load of an id that names no session file, `LoadBroken` one whose
   bounds cannot be read, `CannotOpen` a pass in which opening the database fails.
   */
  datatype Event =
    | Load(session: Session)
    | LoadRefused
    | LoadBroken(session: Session)
    | CannotOpen
    | Control(command: Command)
    | SetSpeed(speed: real)
    | Pass(clocks: seq<Reading>, tick: Reading, tickOk: bool)

  // ---------------------------------------------------------------- emission

  /** Recording time to log time: `relEnd` becomes "now". */
  function Offset(start: real, relEnd: real, emit: real): real {
    emit * 1000.0 - relEnd - start
  }

  function ShiftTime(t: Option<real>, offset: real): Option<real> {
    match t
    case Some(v) => Some(v + offset)
    case None => None
  }

  /** The source id is there and not empty. */
  predicate HasSource(p: Payload) {
    p.sourceId.Some? && p.sourceId.value != ""
  }

  function Shift(p: Payload, offset: real): Payload {
    p.(startTime := ShiftTime(p.startTime, offset),
       endTime := ShiftTime(p.endTime, offset),
       timestamp := ShiftTime(p.timestamp, offset),
       timestamps := match p.timestamps
                     case Some(ts) => Some(seq(|ts|, i requires 0 <= i < |ts| => ts[i] + offset))
                     case None => None,
       sourceId := if HasSource(p) then Some("rec_" + p.sourceId.value) else p.sourceId,
       originalSourceId := if HasSource(p) then p.sourceId else p.originalSourceId,
       isReplay := true)
  }

  /** The time is there in both, `offset` apart, or in neither. */
  ghost predicate Apart(t: Option<real>, u: Option<real>, offset: real) {
    (t.None? && u.None?) || (t.Some? && u.Some? && u.value - t.value == offset)
  }

  /**
   A recorded payload and what is sent for it: every time it carries moved by one offset, the
   samples as they were, and a source id marked as a recording with the true one beside it.
   */
  ghost predicate Replayed(p: Payload, q: Payload, offset: real) {
    && q.isReplay && q.values == p.values
    && Apart(p.startTime, q.startTime, offset)
    && Apart(p.endTime, q.endTime, offset)
    && Apart(p.timestamp, q.timestamp, offset)
    && (p.timestamps.None? <==> q.timestamps.None?)
    && (p.timestamps.Some? ==>
          && |q.timestamps.value| == |p.timestamps.value|
          && forall i :: 0 <= i < |p.timestamps.value| ==> q.timestamps.value[i] - p.timestamps.value[i] == offset)
    && (p.sourceId.GetOr("") != "" ==>
          q.sourceId == Some("rec_" + p.sourceId.value) && q.originalSourceId == p.sourceId)
    && (p.sourceId.GetOr("") == "" ==> q.sourceId == p.sourceId && q.originalSourceId == p.originalSourceId)
  }

  lemma ShiftReplays(p: Payload, offset: real)
    ensures Replayed(p, Shift(p, offset), offset)
  {
  }

  function EmitRange(log: Log, start: real, lo: real, hi: real, emit: real): seq<Out> {
    Sent(Select(log, start + lo, start + hi), Offset(start, hi, emit))
  }

  function Sent(rows: seq<Row>, offset: real): seq<Out> {
    seq(|rows|, i requires 0 <= i < |rows| => Data(rows[i], Shift(rows[i].payload, offset)))
  }

  lemma SentAppend(rows: seq<Row>, row: Row, offset: real)
    ensures Sent(rows + [row], offset) == Sent(rows, offset) + [Data(row, Shift(row.payload, offset))]
  {
    hide Shift;
  }

  // ---------------------------------------------------------------- one step

  predicate Usable(t: real) {
    MIN_VALID_MS <= t <= MAX_VALID_MS
  }

  function LoadOutcome(session: Session): LoadResult {
    match TimeBounds(session)
    case None => NoValidData
    case Some(b) =>
      if !Usable(b.first) || !Usable(b.last) then NoValidData
      else if b.last < b.first then Inconsistent
      else LoadOk
  }

  function Armed(p: Player, b: Span): Player {
    p.(start := b.first, duration := b.last - b.first, cursor := 0.0, paused := true, running := true,
       trace := p.trace + [Loaded(b.last - b.first)])
  }

  /** The path is stored first, so a rejected session still becomes the active one. */
  function LoadSession(p: Player, session: Session): Player {
    var q := p.(active := Some(session));
    if LoadOutcome(session) != LoadOk then q
    else Armed(q, TimeBounds(session).value)
  }

  function SeekTarget(p: Player, target: Option<real>): real {
    Max(0.0, Min(target.GetOr(0.0), p.duration))
  }

  function Apply(p: Player, command: Command, r: Reading): Player
    requires p.conn.Some?
  {
    match command
    case Unload =>
      p.(running := false, active := None, cursor := 0.0, duration := 0.0, trace := p.trace + [Status("stopped")])
    case Stop =>
      p.(paused := true, cursor := 0.0, lastWall := r.wall,
         trace := p.trace + [Reset(0.0), Progress(0.0, p.duration), Status("stopped")])
    case Pause =>
      p.(paused := true, trace := p.trace + [Status("paused")])
    case Play =>
      var q := if p.duration > 0.0 && p.cursor >= p.duration
               then p.(cursor := 0.0, trace := p.trace + [Reset(0.0), Progress(0.0, p.duration)])
               else p;
      q.(paused := false, lastWall := r.wall, trace := q.trace + [Status("playing")])
    case Seek(target) =>
      var s := SeekTarget(p, target);
      var rows := EmitRange(p.conn.value, p.start, Max(0.0, s - SEEK_PREROLL_MS), s, r.emit);
      p.(cursor := s, lastWall := r.wall, trace := p.trace + [Reset(s)] + rows + [Progress(s, p.duration)])
  }

  lemma ApplyKeeps(p: Player, command: Command, r: Reading)
    requires p.conn.Some?
    ensures Apply(p, command, r).queue == p.queue && Apply(p, command, r).conn == p.conn
  {
  }

  predicate NeedsOpening(p: Player) {
    p.running && p.active.Some? && p.conn.None?
  }

  /** Top of the loop: drop the connection without a session, open one when there is none. */
  function Connect(p: Player): Player {
    if !p.running || p.active.None? then p.(conn := None)
    else if p.conn.None? then p.(conn := Some(p.active.value.log))
    else p
  }

  function Drain(p: Player, clocks: seq<Reading>): (q: Player)
    requires p.conn.Some? && |clocks| == |p.queue|
    ensures q.conn == p.conn && q.queue == []
    decreases |p.queue|
  {
    if p.queue == [] then p
    else Drain(Apply(p.(queue := p.queue[1..]), p.queue[0], clocks[0]), clocks[1..])
  }

  /** Whether a pass gets as far as the end check and the tick. */
  predicate Playing(p: Player) {
    p.running && p.active.Some? && !p.paused
  }

  predicate AtEnd(p: Player) {
    p.duration > 0.0 && p.cursor >= p.duration
  }

  function Step(p: Player, r: Reading): real {
    (r.wall - p.lastWall) * 1000.0 * p.speed
  }

  function Tick(p: Player, r: Reading, ok: bool): Player
    requires p.conn.Some?
  {
    var next := p.cursor + Step(p, r);
    if ok then
      p.(lastWall := r.wall, cursor := next,
         trace := p.trace + EmitRange(p.conn.value, p.start, p.cursor, next, r.emit) + [Progress(next, p.duration)])
    else
      p.(lastWall := r.wall, paused := true)
  }

  function ClampToEnd(p: Player): Player {
    p.(paused := true, cursor := p.duration, trace := p.trace + [Status("stopped"), Progress(p.duration, p.duration)])
  }

  /** What a pass does after its checks. */
  function Tail(p: Player, tick: Reading, ok: bool): Player
    requires p.conn.Some?
  {
    if p.paused then p else if AtEnd(p) then ClampToEnd(p) else Tick(p, tick, ok)
  }

  function Finish(p: Player, tick: Reading, ok: bool): Player
    requires p.conn.Some?
  {
    if !p.running || p.active.None? then p.(conn := None) else Tail(p, tick, ok)
  }

  predicate Enough(p: Player, e: Event) {
    e.Pass? && Connect(p).conn.Some? ==> |e.clocks| == |p.queue|
  }

  function Next(p: Player, e: Event): Player
    requires Enough(p, e)
  {
    match e
    case Load(session) => LoadSession(p, session)
    case LoadRefused => p
    case LoadBroken(session) => p.(active := Some(session))
    case CannotOpen => if NeedsOpening(p) then p.(active := None) else p
    case Control(command) => p.(queue := p.queue + [command])
    case SetSpeed(v) => p.(speed := Max(0.1, Min(v, 10.0)))
    case Pass(clocks, tick, ok) =>
      var c := Connect(p);
      if c.conn.None? then c else Finish(Drain(c, clocks), tick, ok)
  }

  /** The clock does not run backwards between the reading a tick starts from and its own. */
  predicate ClockOk(p: Player, e: Event)
    requires Enough(p, e)
  {
    e.Pass? && Connect(p).conn.Some? ==>
      var d := Drain(Connect(p), e.clocks);
      Playing(d) && !AtEnd(d) ==> d.lastWall <= e.tick.wall
  }

  ghost predicate GoodRun(p: Player, events: seq<Event>)
    decreases |events|
  {
    events == [] ||
    (Enough(p, events[0]) && ClockOk(p, events[0]) && GoodRun(Next(p, events[0]), events[1..]))
  }

  function Run(p: Player, events: seq<Event>): Player
    requires GoodRun(p, events)
    decreases |events|
  {
    if events == [] then p else Run(Next(p, events[0]), events[1..])
  }

  const FRESH := Player(None, None, 0.0, 0.0, 0.0, false, false, 1.0, 0.0, [], [])

  // ---------------------------------------------------------------- reading the trace

  /** Rows emitted since the last load or reset. */
  function Emitted(trace: seq<Out>): seq<Row> {
    if trace == [] then []
    else
      var before := trace[..|trace| - 1];
      match trace[|trace| - 1]
      case Loaded(_) => []
      case Reset(_) => []
      case Data(row, _) => Emitted(before) + [row]
      case _ => Emitted(before)
  }

  /** Where the current stretch of playback began: 0, or the preroll before a seek. */
  function Base(trace: seq<Out>): (b: real)
    ensures b >= 0.0
  {
    if trace == [] then 0.0
    else
      match trace[|trace| - 1]
      case Loaded(_) => 0.0
      case Reset(t) => Max(0.0, t - SEEK_PREROLL_MS)
      case _ => Base(trace[..|trace| - 1])
  }

  predicate Quiet(o: Out) {
    !o.Loaded? && !o.Reset?
  }

  function RowsOf(outs: seq<Out>): seq<Row> {
    if outs == [] then []
    else RowsOf(outs[..|outs| - 1]) + (if outs[|outs| - 1].Data? then [outs[|outs| - 1].row] else [])
  }

  lemma {:induction false} AppendQuiet(trace: seq<Out>, more: seq<Out>)
    requires forall i :: 0 <= i < |more| ==> Quiet(more[i])
    ensures Base(trace + more) == Base(trace)
    ensures Emitted(trace + more) == Emitted(trace) + RowsOf(more)
  {
    if more == [] {
      assert trace + more == trace;
    } else {
      assert (trace + more)[..|trace + more| - 1] == trace + more[..|more| - 1];
      AppendQuiet(trace, more[..|more| - 1]);
    }
  }

  lemma {:induction false} RowsOfData(outs: seq<Out>, rows: seq<Row>)
    requires |outs| == |rows|
    requires forall i :: 0 <= i < |rows| ==> outs[i].Data? && outs[i].row == rows[i]
    ensures RowsOf(outs) == rows
  {
    if outs == [] {
    } else {
      RowsOfData(outs[..|outs| - 1], rows[..|rows| - 1]);
    }
  }

  lemma AppendRange(trace: seq<Out>, log: Log, start: real, lo: real, hi: real, emit: real)
    ensures var t := trace + EmitRange(log, start, lo, hi, emit);
            Base(t) == Base(trace) && Emitted(t) == Emitted(trace) + Select(log, start + lo, start + hi)
  {
    var outs := EmitRange(log, start, lo, hi, emit);
    RowsOfData(outs, Select(log, start + lo, start + hi));
    AppendQuiet(trace, outs);
  }

  /**
   What a window `[lo, hi)` of the log puts on the wire at `now`: every DATA_STREAM row in it
   as often as the table holds it, nothing else, by (event time, seq), `hi` mapped to `now`.
   */
  ghost predicate SendsWindow(outs: seq<Out>, log: Log, lo: real, hi: real, now: real) {
    && (forall o :: o in outs ==> o.Data? && Replayed(o.row.payload, o.payload, now - hi))
    && Sorted(RowsOf(outs))
    && forall r :: multiset(RowsOf(outs))[r] == if r.isData && lo <= r.eventTime < hi then multiset(log)[r] else 0
  }

  lemma SentReplays(rows: seq<Row>, offset: real)
    ensures RowsOf(Sent(rows, offset)) == rows
    ensures forall o :: o in Sent(rows, offset) ==> o.Data? && Replayed(o.row.payload, o.payload, offset)
  {
    hide Shift, Replayed;
    var outs := Sent(rows, offset);
    RowsOfData(outs, rows);
    forall i | 0 <= i < |outs| ensures Replayed(outs[i].row.payload, outs[i].payload, offset) {
      ShiftReplays(rows[i].payload, offset);
    }
  }

  lemma RangeIsSent(log: Log, start: real, lo: real, hi: real, emit: real)
    ensures var rows, offset := Within(Ordered(log), start + lo, start + hi), emit * 1000.0 - hi - start;
            && EmitRange(log, start, lo, hi, emit) == Sent(DataRows(rows), offset)
            && Sent(DataRows([]), offset) == []
  {
  }

  lemma SameOffset(start: real, hi: real, emit: real)
    ensures Offset(start, hi, emit) == emit * 1000.0 - (start + hi)
  {
  }

  lemma RangeSendsWindow(log: Log, start: real, lo: real, hi: real, emit: real)
    ensures SendsWindow(EmitRange(log, start, lo, hi, emit), log, start + lo, start + hi, emit * 1000.0)
  {
    hide Select, Sent, Replayed, Sorted, RowsOf, Offset;
    SentReplays(Select(log, start + lo, start + hi), Offset(start, hi, emit));
    SelectExact(log, start + lo, start + hi);
    SameOffset(start, hi, emit);
  }

  lemma AppendMark(trace: seq<Out>, mark: Out)
    requires !Quiet(mark)
    ensures Emitted(trace + [mark]) == []
    ensures Base(trace + [mark]) == if mark.Reset? then Max(0.0, mark.time - SEEK_PREROLL_MS) else 0.0
  {
  }

  // ---------------------------------------------------------------- the run invariant

  /** The log the thread clocks: its open connection, or the session it will connect to. */
  function Source(p: Player): Log
    requires p.active.Some?
  {
    if p.conn.Some? then p.conn.value else p.active.value.log
  }

  /**
   The rows emitted since the last load or reset are exactly the DATA_STREAM rows of
   [base, hi), each once and in order; `hi` is the cursor, or lies past the end the
   cursor was clamped to.
   */
  ghost predicate Consistent(p: Player, hi: real) {
    && 0.1 <= p.speed <= 10.0
    && (p.running ==>
         && (p.active.None? ==> p.conn.None?)
         && p.duration >= 0.0
         && 0.0 <= Base(p.trace) <= hi
         && 0.0 <= p.cursor <= hi
         && (p.cursor == hi || (p.paused && 0.0 < p.duration == p.cursor))
         && (p.conn.None? ==> Emitted(p.trace) == [] && hi == Base(p.trace))
         && (p.active.Some? ==> Emitted(p.trace) == Select(Source(p), p.start + Base(p.trace), p.start + hi)))
  }

  lemma ConnectConsistent(p: Player, hi: real)
    requires Consistent(p, hi)
    ensures Consistent(Connect(p), hi)
  {
  }

  lemma LoadConsistent(p: Player, session: Session, hi: real) returns (hi': real)
    requires Consistent(p, hi)
    ensures Consistent(LoadSession(p, session), hi')
  {
    var q := LoadSession(p, session);
    if LoadOutcome(session) == LoadOk {
      hi' := 0.0;
      AppendMark(p.trace, Loaded(q.duration));
      SelectEmpty(Source(q), q.start, q.start);
    } else {
      hi' := hi;
      PathConsistent(p, Some(session), hi);
    }
  }

  /** Another path under a player that is not connected: nothing has been sent yet. */
  lemma PathConsistent(p: Player, active: Option<Session>, hi: real)
    requires Consistent(p, hi) && (active.None? ==> p.conn.None?)
    ensures Consistent(p.(active := active), hi)
  {
    if p.running && p.conn.None? && active.Some? {
      SelectEmpty(active.value.log, p.start + hi, p.start + hi);
    }
  }

  /** Messages that are neither marks nor data change nothing the invariant reads. */
  lemma AppendPlain(trace: seq<Out>, more: seq<Out>)
    requires forall i :: 0 <= i < |more| ==> more[i].Status? || more[i].Progress?
    ensures Base(trace + more) == Base(trace) && Emitted(trace + more) == Emitted(trace)
  {
    AppendQuiet(trace, more);
    PlainRows(more);
  }

  lemma {:induction false} PlainRows(more: seq<Out>)
    requires forall i :: 0 <= i < |more| ==> !more[i].Data?
    ensures RowsOf(more) == []
  {
    if more == [] {
    } else {
      PlainRows(more[..|more| - 1]);
    }
  }

  /** Jump to a position: a mark, then the window from its preroll up to the position. */
  lemma JumpConsistent(p: Player, q: Player, s: real, rows: seq<Out>, emit: real, tail: seq<Out>)
    requires p.conn.Some? && q.conn == p.conn && 0.1 <= q.speed <= 10.0
    requires q.active.Some? && q.start == p.start && q.duration >= 0.0
    requires s >= 0.0 && q.cursor == s
    requires rows == EmitRange(p.conn.value, p.start, Max(0.0, s - SEEK_PREROLL_MS), s, emit)
    requires forall i :: 0 <= i < |tail| ==> tail[i].Status? || tail[i].Progress?
    requires q.trace == p.trace + [Reset(s)] + rows + tail
    ensures Consistent(q, s)
  {
    hide Select, EmitRange, Emitted, Base;
    AppendMark(p.trace, Reset(s));
    AppendRange(p.trace + [Reset(s)], p.conn.value, p.start, Max(0.0, s - SEEK_PREROLL_MS), s, emit);
    AppendPlain(p.trace + [Reset(s)] + rows, tail);
  }

  lemma RewindConsistent(p: Player, q: Player, tail: seq<Out>)
    requires p.conn.Some? && q.conn == p.conn && 0.1 <= q.speed <= 10.0
    requires q.active.Some? && q.start == p.start && q.duration >= 0.0
    requires q.cursor == 0.0
    requires forall i :: 0 <= i < |tail| ==> tail[i].Status? || tail[i].Progress?
    requires q.trace == p.trace + [Reset(0.0)] + tail
    ensures Consistent(q, 0.0)
  {
    SelectEmpty(p.conn.value, p.start, p.start);
    assert p.trace + [Reset(0.0)] == p.trace + [Reset(0.0)] + [];
    JumpConsistent(p, q, 0.0, [], 0.0, tail);
  }

  lemma PlainConsistent(p: Player, q: Player, more: seq<Out>, hi: real)
    requires Consistent(p, hi) && p.conn.Some?
    requires forall i :: 0 <= i < |more| ==> more[i].Status? || more[i].Progress?
    requires q.trace == p.trace + more
    requires q.conn == p.conn && q.speed == p.speed && q.running == p.running && q.active == p.active
    requires q.start == p.start && q.duration == p.duration
    requires p.running ==> q.cursor == p.cursor || (p.cursor == hi && 0.0 < q.duration == q.cursor <= hi)
    requires p.running ==> q.cursor == hi || q.paused
    ensures Consistent(q, hi)
  {
    hide Select, Emitted, Base;
    AppendPlain(p.trace, more);
  }

  lemma ApplyConsistent(p: Player, command: Command, r: Reading, hi: real) returns (hi': real)
    requires p.conn.Some? && Consistent(p, hi)
    ensures Consistent(Apply(p, command, r), hi')
  {
    hide Select, EmitRange, Emitted, Base;
    var q := Apply(p, command, r);
    hi' := hi;
    if !q.running {
      return;
    }
    match command {
      case Unload =>
      case Stop =>
        hi' := 0.0;
        assert q.trace == p.trace + [Reset(0.0)] + [Progress(0.0, p.duration), Status("stopped")];
        RewindConsistent(p, q, [Progress(0.0, p.duration), Status("stopped")]);
      case Pause =>
        PlainConsistent(p, q, [Status("paused")], hi);
      case Play =>
        if AtEnd(p) {
          hi' := 0.0;
          assert q.trace == p.trace + [Reset(0.0)] + [Progress(0.0, p.duration), Status("playing")];
          RewindConsistent(p, q, [Progress(0.0, p.duration), Status("playing")]);
        } else {
          PlainConsistent(p, q, [Status("playing")], hi);
        }
      case Seek(target) =>
        hi' := SeekTarget(p, target);
        var rows := EmitRange(p.conn.value, p.start, Max(0.0, hi' - SEEK_PREROLL_MS), hi', r.emit);
        JumpConsistent(p, q, hi', rows, r.emit, [Progress(hi', p.duration)]);
    }
  }

  lemma {:induction false} DrainConsistent(p: Player, clocks: seq<Reading>, hi: real) returns (hi': real)
    requires p.conn.Some? && |clocks| == |p.queue| && Consistent(p, hi)
    ensures Consistent(Drain(p, clocks), hi')
    decreases |p.queue|
  {
    hi' := hi;
    if p.queue == [] {
    } else {
      var q := p.(queue := p.queue[1..]);
      var h := ApplyConsistent(q, p.queue[0], clocks[0], hi);
      hi' := DrainConsistent(Apply(q, p.queue[0], clocks[0]), clocks[1..], h);
    }
  }

  lemma StepForward(p: Player, r: Reading)
    requires p.speed >= 0.1 && p.lastWall <= r.wall
    ensures Step(p, r) >= 0.0
  {
    assert (r.wall - p.lastWall) * 1000.0 >= 0.0;
  }

  /** A tick appends the window that starts where the last one ended. */
  lemma TickConsistent(p: Player, tick: Reading, hi: real)
    requires p.conn.Some? && Consistent(p, hi) && p.running && !AtEnd(p)
    requires p.lastWall <= tick.wall
    ensures Consistent(Tick(p, tick, true), Tick(p, tick, true).cursor)
  {
    hide Select, EmitRange, Emitted, Base, Step;
    StepForward(p, tick);
    var log, next := p.conn.value, p.cursor + Step(p, tick);
    AppendRange(p.trace, log, p.start, p.cursor, next, tick.emit);
    AppendPlain(p.trace + EmitRange(log, p.start, p.cursor, next, tick.emit), [Progress(next, p.duration)]);
    SelectSplit(log, p.start + Base(p.trace), p.start + p.cursor, p.start + next);
  }

  lemma FinishConsistent(p: Player, tick: Reading, ok: bool, hi: real) returns (hi': real)
    requires p.conn.Some? && Consistent(p, hi)
    requires Playing(p) && !AtEnd(p) ==> p.lastWall <= tick.wall
    ensures Consistent(Finish(p, tick, ok), hi')
  {
    hide Select, EmitRange, Emitted, Base, Step;
    var q := Finish(p, tick, ok);
    hi' := hi;
    if !Playing(p) {
    } else if AtEnd(p) {
      PlainConsistent(p, q, [Status("stopped"), Progress(p.duration, p.duration)], hi);
    } else if ok {
      hi' := q.cursor;
      TickConsistent(p, tick, hi);
    }
  }

  lemma NextConsistent(p: Player, e: Event, hi: real) returns (hi': real)
    requires Enough(p, e) && ClockOk(p, e) && Consistent(p, hi)
    ensures Consistent(Next(p, e), hi')
  {
    hi' := hi;
    match e {
      case Load(session) => hi' := LoadConsistent(p, session, hi);
      case LoadRefused =>
      case LoadBroken(session) => PathConsistent(p, Some(session), hi);
      case CannotOpen =>
        if NeedsOpening(p) {
          PathConsistent(p, None, hi);
        }
      case Control(_) =>
      case SetSpeed(_) =>
      case Pass(clocks, tick, ok) =>
        ConnectConsistent(p, hi);
        var c := Connect(p);
        if c.conn.Some? {
          var h := DrainConsistent(c, clocks, hi);
          hi' := FinishConsistent(Drain(c, clocks), tick, ok, h);
        }
    }
  }

  lemma {:induction false} RunConsistentFrom(p: Player, events: seq<Event>, hi: real) returns (hi': real)
    requires GoodRun(p, events) && Consistent(p, hi)
    ensures Consistent(Run(p, events), hi')
    decreases |events|
  {
    hi' := hi;
    if events == [] {
    } else {
      var h := NextConsistent(p, events[0], hi);
      hi' := RunConsistentFrom(Next(p, events[0]), events[1..], h);
    }
  }

  /** Every reachable state of the replay thread satisfies the run invariant. */
  lemma RunInvariant(events: seq<Event>)
    requires GoodRun(FRESH, events)
    ensures exists hi :: Consistent(Run(FRESH, events), hi)
  {
    var hi := RunConsistentFrom(FRESH, events, 0.0);
  }

  // ---------------------------------------------------------------- which log is played

  /** The open connection belongs to the session that was loaded last. */
  ghost predicate Faithful(p: Player) {
    p.running && p.conn.Some? && p.active.Some? ==> p.conn.value == p.active.value.log
  }

  /** The event makes another file the session of a player that runs, or starts to. */
  predicate Repoints(p: Player, e: Event) {
    (e.Load? && (p.running || LoadOutcome(e.session) == LoadOk)) || (e.LoadBroken? && p.running)
  }

  /**
   A step keeps that exactly unless it loads another log under an open connection: the
   loop only connects when it has none, so the earlier log would be played on.
   */
  lemma FaithfulStep(p: Player, e: Event)
    requires Enough(p, e) && Faithful(p)
    ensures Faithful(Next(p, e)) <==>
            (Repoints(p, e) && p.conn.Some? ==> p.conn.value == e.session.log)
  {
    if e.Pass? && Connect(p).conn.Some? {
      DrainSession(Connect(p), e.clocks);
    }
  }

  /** Commands never open another session; only unloading lets go of the current one. */
  lemma {:induction false} DrainSession(p: Player, clocks: seq<Reading>)
    requires p.conn.Some? && |clocks| == |p.queue|
    ensures var d := Drain(p, clocks);
            && (d.active == p.active || (d.active.None? && !d.running))
            && (d.running ==> p.running)
            && (Unload !in p.queue ==> d.running == p.running && d.active == p.active)
    decreases |p.queue|
  {
    if p.queue == [] {
    } else {
      DrainSession(Apply(p.(queue := p.queue[1..]), p.queue[0], clocks[0]), clocks[1..]);
    }
  }

  /** Without an unload the open connection outlives any load and any other step. */
  lemma ConnectionPersists(p: Player, e: Event)
    requires Enough(p, e) && p.running && p.active.Some? && p.conn.Some? && Unload !in p.queue
    ensures var q := Next(p, e); q.running && q.active.Some? && q.conn == p.conn
  {
    if e.Pass? {
      DrainSession(p, e.clocks);
    }
  }

  /** A player that does not run has let go of its connection. */
  ghost predicate Rested(p: Player) {
    !p.running ==> p.conn.None?
  }

  lemma NextRested(p: Player, e: Event)
    requires Enough(p, e) && Rested(p)
    ensures Rested(Next(p, e))
  {
    hide EmitRange, Step, Drain;
  }

  /** Sessions are loaded only while `running` is false, which the caller can see. */
  ghost predicate LoadsAtRest(p: Player, events: seq<Event>)
    requires GoodRun(p, events)
    decreases |events|
  {
    events == [] ||
    ((events[0].Load? || events[0].LoadBroken? ==> !p.running) && LoadsAtRest(Next(p, events[0]), events[1..]))
  }

  lemma {:induction false} FaithfulRunFrom(p: Player, events: seq<Event>)
    requires GoodRun(p, events) && LoadsAtRest(p, events) && Faithful(p) && Rested(p)
    ensures Faithful(Run(p, events))
    decreases |events|
  {
    if events == [] {
    } else {
      FaithfulStep(p, events[0]);
      NextRested(p, events[0]);
      hide Next, Faithful;
      FaithfulRunFrom(Next(p, events[0]), events[1..]);
    }
  }

  /** When sessions are loaded only at rest, the loaded session is the one played. */
  lemma FaithfulRun(events: seq<Event>)
    requires GoodRun(FRESH, events) && LoadsAtRest(FRESH, events)
    ensures Faithful(Run(FRESH, events))
  {
    FaithfulRunFrom(FRESH, events);
  }

  // ---------------------------------------------------------------- pausing

  /** The only commands that can make the thread send rows. */
  predicate Resumes(c: Command) {
    c.Play? || c.Seek?
  }

  ghost predicate HeldStill(p: Player) {
    p.paused && forall c :: c in p.queue ==> !Resumes(c)
  }

  lemma {:induction false} RowsOfConcat(a: seq<Out>, b: seq<Out>)
    ensures RowsOf(a + b) == RowsOf(a) + RowsOf(b)
  {
    if b == [] {
      assert a + b == a;
    } else {
      assert (a + b)[..|a + b| - 1] == a + b[..|b| - 1];
      RowsOfConcat(a, b[..|b| - 1]);
    }
  }

  lemma AppendNoData(trace: seq<Out>, more: seq<Out>)
    requires forall i :: 0 <= i < |more| ==> !more[i].Data?
    ensures RowsOf(trace + more) == RowsOf(trace)
  {
    hide RowsOf;
    RowsOfConcat(trace, more);
    PlainRows(more);
  }

  lemma ApplyHeldStill(p: Player, c: Command, r: Reading)
    requires p.conn.Some? && p.paused && !Resumes(c)
    ensures var q := Apply(p, c, r); q.paused && q.queue == p.queue && RowsOf(q.trace) == RowsOf(p.trace)
  {
    hide RowsOf;
    match c {
      case Unload => AppendNoData(p.trace, [Status("stopped")]);
      case Stop => AppendNoData(p.trace, [Reset(0.0), Progress(0.0, p.duration), Status("stopped")]);
      case Pause => AppendNoData(p.trace, [Status("paused")]);
      case _ =>
    }
  }

  lemma {:induction false} DrainHeldStill(p: Player, clocks: seq<Reading>)
    requires p.conn.Some? && |clocks| == |p.queue| && HeldStill(p)
    ensures var q := Drain(p, clocks); HeldStill(q) && RowsOf(q.trace) == RowsOf(p.trace)
    decreases |p.queue|
  {
    if p.queue == [] {
    } else {
      hide RowsOf;
      var q := p.(queue := p.queue[1..]);
      ApplyHeldStill(q, p.queue[0], clocks[0]);
      DrainHeldStill(Apply(q, p.queue[0], clocks[0]), clocks[1..]);
    }
  }

  lemma NextHeldStill(p: Player, e: Event)
    requires Enough(p, e) && HeldStill(p) && !(e.Control? && Resumes(e.command))
    ensures HeldStill(Next(p, e)) && RowsOf(Next(p, e).trace) == RowsOf(p.trace)
  {
    hide RowsOf, Drain;
    match e {
      case Load(session) =>
        if LoadOutcome(session) == LoadOk {
          AppendNoData(p.trace, [Loaded(LoadSession(p, session).duration)]);
        }
      case Pass(clocks, tick, ok) =>
        if Connect(p).conn.Some? {
          DrainHeldStill(Connect(p), clocks);
        }
      case _ =>
    }
  }

  /** Once paused, nothing is sent on any run until a play or seek command is given. */
  lemma {:induction false} SilentWhilePaused(p: Player, events: seq<Event>)
    requires GoodRun(p, events) && HeldStill(p)
    requires forall e :: e in events ==> !(e.Control? && Resumes(e.command))
    ensures RowsOf(Run(p, events).trace) == RowsOf(p.trace)
    decreases |events|
  {
    if events == [] {
    } else {
      hide RowsOf, Next, HeldStill, Resumes;
      assert events[0] in events && forall e :: e in events[1..] ==> e in events;
      NextHeldStill(p, events[0]);
      SilentWhilePaused(Next(p, events[0]), events[1..]);
    }
  }

  // ---------------------------------------------------------------- shifted payloads

  /** Shifting loses nothing: two live payloads that replay alike are the same payload. */
  lemma ShiftLosesNothing(a: Payload, b: Payload, offset: real)
    requires Shift(a, offset) == Shift(b, offset)
    requires !a.isReplay && !b.isReplay && a.originalSourceId.None? && b.originalSourceId.None?
    ensures a == b
  {
    var s, t := Shift(a, offset), Shift(b, offset);
    assert HasSource(a) ==> s.originalSourceId == a.sourceId;
    assert HasSource(b) ==> t.originalSourceId == b.sourceId;
    if a.timestamps.Some? {
      var u, v := a.timestamps.value, b.timestamps.value;
      forall i | 0 <= i < |u| ensures |v| == |u| && u[i] == v[i] {
        assert s.timestamps.value[i] == u[i] + offset && t.timestamps.value[i] == v[i] + offset;
      }
      assert |s.timestamps.value| == |u| && |t.timestamps.value| == |v|;
      assert u == v;
    }
  }

  // ---------------------------------------------------------------- shifted log times

  /** A time equal to the row's event time that lies in the window before `now` once it is shifted. */
  ghost predicate LandsBefore(t: Option<real>, u: Option<real>, eventTime: real, width: real, now: real) {
    t == Some(eventTime) ==> u.Some? && now - width <= u.value < now
  }

  /**
   Each event of a window lands less than the window length before the emission, and so does
   the time its payload carries, where that is the time it was filed under.
   */
  lemma WindowShift(log: Log, start: real, lo: real, hi: real, emit: real, i: nat)
    requires i < |EmitRange(log, start, lo, hi, emit)|
    ensures var o := EmitRange(log, start, lo, hi, emit)[i];
            && o.Data? && Replayed(o.row.payload, o.payload, Offset(start, hi, emit))
            && emit * 1000.0 - (hi - lo) <= o.row.eventTime + Offset(start, hi, emit) < emit * 1000.0
            && LandsBefore(o.row.payload.startTime, o.payload.startTime, o.row.eventTime, hi - lo, emit * 1000.0)
            && LandsBefore(o.row.payload.timestamp, o.payload.timestamp, o.row.eventTime, hi - lo, emit * 1000.0)
  {
    hide Select;
    var rows := Select(log, start + lo, start + hi);
    assert rows[i] in rows;
    SelectMembers(log, start + lo, start + hi, rows[i]);
    ShiftReplays(rows[i].payload, Offset(start, hi, emit));
  }

  /** The offset a tick shifts its window by. */
  function TickOffset(p: Player, r: Reading): real {
    Offset(p.start, p.cursor + Step(p, r), r.emit)
  }

  function PlayOn(p: Player, ticks: seq<Reading>): (q: Player)
    requires p.conn.Some?
    ensures q.conn == p.conn && q.active == p.active && q.running == p.running && q.queue == p.queue
    ensures q.start == p.start && q.duration == p.duration && q.speed == p.speed && q.paused == p.paused
    decreases |ticks|
  {
    if ticks == [] then p else Tick(PlayOn(p, ticks[..|ticks| - 1]), ticks[|ticks| - 1], true)
  }

  /** Elapsed times add up. */
  lemma AddSteps(p: Player, q: Player, mid: Reading, last: Reading)
    requires q.speed == p.speed && q.lastWall == mid.wall
    ensures Step(p, mid) + Step(q, last) == Step(p, last)
  {
    AddElapsed(p.lastWall, mid.wall, last.wall, p.speed);
  }

  lemma AddElapsed(a: real, b: real, c: real, speed: real)
    ensures (b - a) * 1000.0 * speed + (c - b) * 1000.0 * speed == (c - a) * 1000.0 * speed
  {
  }

  /** However the ticks fall, the cursor advances by the elapsed time times the speed. */
  lemma {:induction false} CursorIsElapsed(p: Player, ticks: seq<Reading>)
    requires p.conn.Some? && ticks != []
    ensures PlayOn(p, ticks).lastWall == ticks[|ticks| - 1].wall
    ensures PlayOn(p, ticks).cursor == p.cursor + Step(p, ticks[|ticks| - 1])
    decreases |ticks|
  {
    hide EmitRange, Step;
    var before, last := ticks[..|ticks| - 1], ticks[|ticks| - 1];
    var q := PlayOn(p, before);
    assert PlayOn(p, ticks).cursor == q.cursor + Step(q, last);
    if before == [] {
    } else {
      CursorIsElapsed(p, before);
      AddSteps(p, q, before[|before| - 1], last);
    }
  }

  /** With an empty queue, playing, before the end, a pass of the loop is one tick. */
  lemma PassIsTick(p: Player, r: Reading, ok: bool)
    requires p.conn.Some? && Playing(p) && !AtEnd(p) && p.queue == []
    ensures Enough(p, Pass([], r, ok)) && Next(p, Pass([], r, ok)) == Tick(p, r, ok)
  {
  }

  /** At speed 1 all ticks of one play use one shift, up to how late each emission was. */
  lemma {:induction false} UnitSpeedShift(p: Player, ticks: seq<Reading>, r: Reading)
    requires p.conn.Some? && p.speed == 1.0
    ensures TickOffset(PlayOn(p, ticks), r) == p.lastWall * 1000.0 - p.cursor - p.start + r.Lag()
    decreases |ticks|
  {
    if ticks == [] {
    } else {
      var before, last := ticks[..|ticks| - 1], ticks[|ticks| - 1];
      UnitSpeedShift(p, before, last);
      UnitSpeedTicks(p, before);
    }
  }

  lemma {:induction false} UnitSpeedTicks(p: Player, ticks: seq<Reading>)
    requires p.conn.Some? && p.speed == 1.0
    ensures var q := PlayOn(p, ticks);
            q.lastWall * 1000.0 - q.cursor == p.lastWall * 1000.0 - p.cursor
    decreases |ticks|
  {
    if ticks == [] {
    } else {
      UnitSpeedTicks(p, ticks[..|ticks| - 1]);
    }
  }

  /** Up to real time, a tick's events lie between the previous clock reading and its own. */
  lemma TickShiftBounds(p: Player, r: Reading, row: Row)
    requires p.conn.Some? && 0.0 < p.speed <= 1.0 && p.lastWall <= r.wall
    requires row in Select(p.conn.value, p.start + p.cursor, p.start + p.cursor + Step(p, r))
    ensures p.lastWall * 1000.0 + r.Lag() <= row.eventTime + TickOffset(p, r) < r.wall * 1000.0 + r.Lag()
  {
    hide Select, Step;
    SelectMembers(p.conn.value, p.start + p.cursor, p.start + p.cursor + Step(p, r), row);
    StepAtMostElapsed(p, r);
  }

  lemma StepAtMostElapsed(p: Player, r: Reading)
    requires 0.0 < p.speed <= 1.0 && p.lastWall <= r.wall
    ensures Step(p, r) <= r.wall * 1000.0 - p.lastWall * 1000.0
  {
    var d, slack := (r.wall - p.lastWall) * 1000.0, 1.0 - p.speed;
    assert d * slack >= 0.0;
    assert d * p.speed == d - d * slack;
  }

  /** At speed <= 1 an event of a later tick is logged later, but for what the emissions lag differently. */
  lemma TicksApart(p: Player, r: Reading, row: Row, p': Player, r': Reading, row': Row)
    requires p.conn.Some? && 0.0 < p.speed <= 1.0 && p.lastWall <= r.wall
    requires p'.conn.Some? && 0.0 < p'.speed <= 1.0 && p'.lastWall <= r'.wall
    requires r.wall <= p'.lastWall
    requires row in Select(p.conn.value, p.start + p.cursor, p.start + p.cursor + Step(p, r))
    requires row' in Select(p'.conn.value, p'.start + p'.cursor, p'.start + p'.cursor + Step(p', r'))
    ensures row'.eventTime + TickOffset(p', r') - (row.eventTime + TickOffset(p, r)) > r'.Lag() - r.Lag()
  {
    hide Select, TickOffset;
    TickShiftBounds(p, r, row);
    TickShiftBounds(p', r', row');
  }

  /** The clock never runs backwards along the ticks. */
  ghost predicate ForwardClock(p: Player, ticks: seq<Reading>) {
    && (forall i :: 0 <= i < |ticks| ==> p.lastWall <= ticks[i].wall)
    && forall i, j :: 0 <= i < j < |ticks| ==> ticks[i].wall <= ticks[j].wall
  }

  /** The row is sent by tick `i` of the play. */
  ghost predicate SentBy(p: Player, ticks: seq<Reading>, i: nat, row: Row)
    requires p.conn.Some? && i < |ticks|
  {
    var q := PlayOn(p, ticks[..i]);
    row in Select(q.conn.value, q.start + q.cursor, q.start + q.cursor + Step(q, ticks[i]))
  }

  /** The log time it is sent under. */
  ghost function LoggedAt(p: Player, ticks: seq<Reading>, i: nat, row: Row): real
    requires p.conn.Some? && i < |ticks|
  {
    row.eventTime + TickOffset(PlayOn(p, ticks[..i]), ticks[i])
  }

  /**
   Over a whole play at speed <= 1, any two windows: the later one is logged later, but for
   the difference of their lags.
   */
  lemma PlayWindowsApart(p: Player, ticks: seq<Reading>, i: nat, row: Row, j: nat, row': Row)
    requires p.conn.Some? && 0.0 < p.speed <= 1.0 && ForwardClock(p, ticks) && i < j < |ticks|
    requires SentBy(p, ticks, i, row) && SentBy(p, ticks, j, row')
    ensures LoggedAt(p, ticks, j, row') - LoggedAt(p, ticks, i, row) > ticks[j].Lag() - ticks[i].Lag()
  {
    hide Select, Step, TickOffset, PlayOn;
    LastWallOf(p, ticks, i);
    LastWallOf(p, ticks, j);
    TicksApart(PlayOn(p, ticks[..i]), ticks[i], row, PlayOn(p, ticks[..j]), ticks[j], row');
  }

  /** With one clock reading per tick, or an even lag, emitted log times never go backwards. */
  lemma PlayNeverBackwards(p: Player, ticks: seq<Reading>, i: nat, row: Row, j: nat, row': Row)
    requires p.conn.Some? && 0.0 < p.speed <= 1.0 && ForwardClock(p, ticks) && i < j < |ticks|
    requires SentBy(p, ticks, i, row) && SentBy(p, ticks, j, row')
    requires ticks[i].Lag() <= ticks[j].Lag()
    ensures LoggedAt(p, ticks, i, row) < LoggedAt(p, ticks, j, row')
  {
    hide SentBy, LoggedAt;
    PlayWindowsApart(p, ticks, i, row, j, row');
  }

  lemma LastWallOf(p: Player, ticks: seq<Reading>, i: nat)
    requires p.conn.Some? && i <= |ticks|
    ensures PlayOn(p, ticks[..i]).lastWall == if i == 0 then p.lastWall else ticks[i - 1].wall
  {
    if i > 0 {
      assert ticks[..i][|ticks[..i]| - 1] == ticks[i - 1];
    }
  }

  // ---------------------------------------------------------------- the replay thread object

  class SessionReplayer {
    var conn: Option<Log>
    var activeSession: Option<Session>
    var sessionStartMs: real
    var sessionDurationMs: real
    var currentReplayMs: real
    var paused: bool
    var running: bool
    var speed: real
    var lastWallClock: real
    var commandQueue: seq<Command>
    ghost var trace: seq<Out>

    ghost function Abs(): Player
      reads this
    {
      Player(conn, activeSession, sessionStartMs, sessionDurationMs, currentReplayMs, paused, running,
             speed, lastWallClock, commandQueue, trace)
    }

    constructor ()
      ensures Abs() == FRESH
    {
      conn, activeSession := None, None;
      sessionStartMs, sessionDurationMs, currentReplayMs, lastWallClock := 0.0, 0.0, 0.0, 0.0;
      paused, running, speed := false, false, 1.0;
      commandQueue, trace := [], [];
    }

    /** `found` is the session file the id names, if it names one. */
    method LoadSession(found: Option<Session>, readOk: bool) returns (result: LoadResult)
      modifies this
      ensures result == match found
                        case None => NotFound
                        case Some(session) => if readOk then LoadOutcome(session) else DatabaseError
      ensures Abs() == Next(old(Abs()), match found
                                        case None => LoadRefused
                                        case Some(session) => if readOk then Load(session) else LoadBroken(session))
      ensures result != LoadOk ==>
                Abs() == old(Abs()).(active := if found.None? then old(activeSession) else found)
      ensures result == LoadOk ==>
                found.Some? && activeSession == found && paused && running && currentReplayMs == 0.0
      ensures found.Some? && readOk ==>
                match TimeBounds(found.value)
                case None => result == NoValidData
                case Some(b) =>
                  && (result == LoadOk <==> 1577836800000.0 <= b.first <= b.last <= 4102444800000.0)
                  && (result == Inconsistent <==> 1577836800000.0 <= b.last < b.first <= 4102444800000.0)
                  && (result.LoadOk? || result.Inconsistent? || result.NoValidData?)
                  && (result == LoadOk ==> sessionStartMs == b.first && sessionDurationMs == b.last - b.first)
    {
      hide TimeBounds;
      if found.None? {
        return NotFound;
      }
      activeSession := found;
      if !readOk {
        return DatabaseError;
      }
      var bounds := TimeBounds(found.value);
      if bounds.None? || !Usable(bounds.value.first) || !Usable(bounds.value.last) {
        return NoValidData;
      }
      if bounds.value.last < bounds.value.first {
        return Inconsistent;
      }
      Arm(bounds.value);
      return LoadOk;
    }

    /** Ready at the start of the span, paused. */
    method Arm(span: Span)
      modifies this
      ensures Abs() == Armed(old(Abs()), span)
    {
      sessionStartMs := span.first;
      sessionDurationMs := span.last - span.first;
      currentReplayMs := 0.0;
      paused, running := true, true;
      trace := trace + [Loaded(sessionDurationMs)];
    }

    method Control(command: Command)
      modifies this`commandQueue
      ensures Abs() == Next(old(Abs()), Event.Control(command))
      ensures commandQueue == old(commandQueue) + [command]
    {
      commandQueue := commandQueue + [command];
    }

    method SetSpeed(value: real)
      modifies this`speed
      ensures Abs() == Next(old(Abs()), Event.SetSpeed(value))
      ensures 0.1 <= value <= 10.0 ==> speed == value
      ensures value < 0.1 ==> speed == 0.1
      ensures value > 10.0 ==> speed == 10.0
    {
      speed := Max(0.1, Min(value, 10.0));
    }

    /** One windowed query and the loop that sends its rows. */
    method EmitWindow(relStart: real, relEnd: real, emit: real)
      requires conn.Some?
      modifies this`trace
      ensures trace == old(trace) + EmitRange(conn.value, sessionStartMs, relStart, relEnd, emit)
      ensures SendsWindow(trace[|old(trace)|..], conn.value, sessionStartMs + relStart, sessionStartMs + relEnd,
                          emit * 1000.0)
    {
      hide *;
      var offset := emit * 1000.0 - relEnd - sessionStartMs;
      var fetched := Within(Ordered(conn.value), sessionStartMs + relStart, sessionStartMs + relEnd);
      ghost var sent: seq<Out> := [];
      RangeIsSent(conn.value, sessionStartMs, relStart, relEnd, emit);
      assert fetched[..0] == [];
      for i := 0 to |fetched|
        invariant trace == old(trace) + sent
        invariant sent == Sent(DataRows(fetched[..i]), offset)
      {
        assert fetched[..i + 1] == fetched[..i] + [fetched[i]];
        DataRowsSnoc(fetched[..i], fetched[i]);
        if fetched[i].isData {
          SentAppend(DataRows(fetched[..i]), fetched[i], offset);
          var out := Data(fetched[i], Shift(fetched[i].payload, offset));
          trace := trace + [out];
          sent := sent + [out];
        }
      }
      assert fetched[..|fetched|] == fetched;
      RangeSendsWindow(conn.value, sessionStartMs, relStart, relEnd, emit);
      assert trace[|old(trace)|..] == sent;
    }

    /** The seek command: clamp the target, mark the jump, send the preroll. */
    method SeekTo(target: Option<real>, clock: Reading)
      requires conn.Some?
      modifies this`currentReplayMs, this`lastWallClock, this`trace
      ensures Abs() == Apply(old(Abs()), Seek(target), clock)
      ensures lastWallClock == clock.wall
      ensures match target
              case None => currentReplayMs == 0.0
              case Some(t) =>
                && (0.0 <= t <= sessionDurationMs ==> currentReplayMs == t)
                && (t < 0.0 ==> currentReplayMs == 0.0)
                && (0.0 <= sessionDurationMs < t ==> currentReplayMs == sessionDurationMs)
      ensures |old(trace)| + 2 <= |trace| && old(trace) == trace[..|old(trace)|]
      ensures trace[|old(trace)|] == Reset(currentReplayMs)
      ensures trace[|trace| - 1] == Progress(currentReplayMs, sessionDurationMs)
      ensures SendsWindow(trace[|old(trace)| + 1..|trace| - 1], conn.value,
                          sessionStartMs + (if currentReplayMs < 2000.0 then 0.0 else currentReplayMs - 2000.0),
                          sessionStartMs + currentReplayMs, clock.emit * 1000.0)
    {
      hide EmitRange, SendsWindow;
      var seekMs := Max(0.0, Min(target.GetOr(0.0), sessionDurationMs));
      currentReplayMs, lastWallClock := seekMs, clock.wall;
      trace := trace + [Reset(seekMs)];
      EmitWindow(Max(0.0, seekMs - SEEK_PREROLL_MS), seekMs, clock.emit);
      ghost var sent := trace;
      trace := trace + [Progress(seekMs, sessionDurationMs)];
      assert trace[|old(trace)| + 1..|trace| - 1] == sent[|old(trace)| + 1..];
    }

    method Execute(command: Command, clock: Reading)
      requires conn.Some?
      modifies this
      ensures Abs() == Apply(old(Abs()), command, clock)
      ensures conn == old(conn) && commandQueue == old(commandQueue) && speed == old(speed)
      ensures sessionStartMs == old(sessionStartMs)
      ensures !command.Unload? ==>
        running == old(running) && activeSession == old(activeSession) && sessionDurationMs == old(sessionDurationMs)
      ensures command.Unload? ==>
        && !running && activeSession == None && paused == old(paused) && lastWallClock == old(lastWallClock)
        && currentReplayMs == 0.0 && sessionDurationMs == 0.0
        && trace == old(trace) + [Status("stopped")]
      ensures command.Stop? ==>
        && paused && currentReplayMs == 0.0 && lastWallClock == clock.wall
        && trace == old(trace) + [Reset(0.0), Progress(0.0, sessionDurationMs), Status("stopped")]
      ensures command.Pause? ==>
        && paused && currentReplayMs == old(currentReplayMs) && lastWallClock == old(lastWallClock)
        && trace == old(trace) + [Status("paused")]
      ensures command.Play? ==> !paused && lastWallClock == clock.wall
      ensures command.Play? && 0.0 < sessionDurationMs <= old(currentReplayMs) ==>
        && currentReplayMs == 0.0
        && trace == old(trace) + [Reset(0.0), Progress(0.0, sessionDurationMs), Status("playing")]
      ensures command.Play? && !(0.0 < sessionDurationMs <= old(currentReplayMs)) ==>
        && currentReplayMs == old(currentReplayMs)
        && trace == old(trace) + [Status("playing")]
      ensures command.Seek? ==> paused == old(paused) && lastWallClock == clock.wall
      ensures command.Seek? ==>
                match command.target
                case None => currentReplayMs == 0.0
                case Some(t) =>
                  && (0.0 <= t <= sessionDurationMs ==> currentReplayMs == t)
                  && (t < 0.0 ==> currentReplayMs == 0.0)
                  && (0.0 <= sessionDurationMs < t ==> currentReplayMs == sessionDurationMs)
      ensures command.Seek? ==>
        && |old(trace)| + 2 <= |trace| && old(trace) == trace[..|old(trace)|]
        && trace[|old(trace)|] == Reset(currentReplayMs)
        && trace[|trace| - 1] == Progress(currentReplayMs, sessionDurationMs)
        && SendsWindow(trace[|old(trace)| + 1..|trace| - 1], conn.value,
                       sessionStartMs + (if currentReplayMs < 2000.0 then 0.0 else currentReplayMs - 2000.0),
                       sessionStartMs + currentReplayMs, clock.emit * 1000.0)
    {
      hide EmitRange, SendsWindow;
      match command {
        case Unload =>
          running, activeSession, currentReplayMs, sessionDurationMs := false, None, 0.0, 0.0;
          trace := trace + [Status("stopped")];
        case Stop =>
          paused, currentReplayMs, lastWallClock := true, 0.0, clock.wall;
          trace := trace + [Reset(0.0), Progress(0.0, sessionDurationMs), Status("stopped")];
        case Pause =>
          paused := true;
          trace := trace + [Status("paused")];
        case Play =>
          if sessionDurationMs > 0.0 && currentReplayMs >= sessionDurationMs {
            currentReplayMs := 0.0;
            trace := trace + [Reset(0.0), Progress(0.0, sessionDurationMs)];
          }
          paused, lastWallClock := false, clock.wall;
          trace := trace + [Status("playing")];
        case Seek(target) => SeekTo(target, clock);
      }
    }

    method DrainCommands(clocks: seq<Reading>)
      requires conn.Some? && |clocks| == |commandQueue|
      modifies this
      ensures Abs() == Drain(old(Abs()), clocks)
    {
      hide Apply;
      var i := 0;
      while commandQueue != []
        invariant 0 <= i <= |clocks| && |commandQueue| == |clocks| - i && conn.Some?
        invariant Drain(Abs(), clocks[i..]) == Drain(old(Abs()), clocks)
        decreases |commandQueue|
      {
        var command := commandQueue[0];
        commandQueue := commandQueue[1..];
        ApplyKeeps(Abs(), command, clocks[i]);
        Execute(command, clocks[i]);
        assert clocks[i..][1..] == clocks[i + 1..];
        i := i + 1;
      }
    }

    /** The tail of a pass: read the clock, emit the next window, move the cursor. */
    method Advance(tick: Reading, tickOk: bool)
      requires conn.Some?
      modifies this`lastWallClock, this`currentReplayMs, this`paused, this`trace
      ensures Abs() == Tick(old(Abs()), tick, tickOk)
      ensures lastWallClock == tick.wall && paused == (old(paused) || !tickOk)
      ensures tickOk ==>
        && currentReplayMs == old(currentReplayMs) + (tick.wall - old(lastWallClock)) * 1000.0 * speed
        && old(trace) < trace && trace[|trace| - 1] == Progress(currentReplayMs, sessionDurationMs)
        && SendsWindow(trace[|old(trace)|..|trace| - 1], conn.value, sessionStartMs + old(currentReplayMs),
                       sessionStartMs + currentReplayMs, tick.emit * 1000.0)
      ensures !tickOk ==> currentReplayMs == old(currentReplayMs) && trace == old(trace)
    {
      hide EmitRange, SendsWindow;
      ghost var before := Abs();
      var dt := (tick.wall - lastWallClock) * 1000.0 * speed;
      assert dt == Step(before, tick);
      hide Step;
      lastWallClock := tick.wall;
      var nextMs := currentReplayMs + dt;
      if tickOk {
        EmitWindow(currentReplayMs, nextMs, tick.emit);
        currentReplayMs := nextMs;
        ghost var sent := trace;
        trace := trace + [Progress(currentReplayMs, sessionDurationMs)];
        assert trace[|old(trace)|..|trace| - 1] == sent[|old(trace)|..];
      } else {
        paused := true;
      }
    }

    /** What a pass does once the queue is empty: unloaded, paused, at the end, or a tick. */
    method FinishPass(tick: Reading, tickOk: bool)
      requires conn.Some?
      modifies this`conn, this`lastWallClock, this`currentReplayMs, this`paused, this`trace
      ensures Abs() == Finish(old(Abs()), tick, tickOk)
      ensures !running || activeSession.None? ==> Abs() == old(Abs()).(conn := None)
      ensures running && activeSession.Some? ==>
        && conn == old(conn)
        && (old(paused) ==> Abs() == old(Abs()))
        && (old(!paused && 0.0 < sessionDurationMs <= currentReplayMs) ==>
              && paused && currentReplayMs == sessionDurationMs
              && trace == old(trace) + [Status("stopped"), Progress(sessionDurationMs, sessionDurationMs)])
        && (old(!paused && !(0.0 < sessionDurationMs <= currentReplayMs)) ==>
              && paused == !tickOk && lastWallClock == tick.wall
              && currentReplayMs == if !tickOk then old(currentReplayMs)
                                    else old(currentReplayMs) + (tick.wall - old(lastWallClock)) * 1000.0 * speed)
    {
      hide Tick, SendsWindow;
      if !running || activeSession.None? {
        conn := None;
        return;
      }
      if paused {
        return;
      }
      if sessionDurationMs > 0.0 && currentReplayMs >= sessionDurationMs {
        paused, currentReplayMs := true, sessionDurationMs;
        trace := trace + [Status("stopped"), Progress(currentReplayMs, sessionDurationMs)];
        return;
      }
      Advance(tick, tickOk);
    }

    /** One pass of the main loop. */
    method RunOnce(openOk: bool, clocks: seq<Reading>, tick: Reading, tickOk: bool)
      requires Enough(Abs(), Pass(clocks, tick, tickOk))
      modifies this
      ensures Abs() == Next(old(Abs()), if !openOk && NeedsOpening(old(Abs())) then CannotOpen
                            else Pass(clocks, tick, tickOk))
      ensures !old(running) || old(activeSession).None? ==> Abs() == old(Abs()).(conn := None)
      ensures old(running && activeSession.Some? && conn.None?) && !openOk ==> Abs() == old(Abs()).(active := None)
      ensures old(running && activeSession.Some? && commandQueue == []) && (old(conn).Some? || openOk) ==>
        && conn == Some(if old(conn).Some? then old(conn).value else old(activeSession).value.log)
        && running && activeSession == old(activeSession) && sessionDurationMs == old(sessionDurationMs)
        && (old(paused) ==> paused && currentReplayMs == old(currentReplayMs) && trace == old(trace))
        && (old(!paused && 0.0 < sessionDurationMs <= currentReplayMs) ==>
              && paused && currentReplayMs == sessionDurationMs
              && trace == old(trace) + [Status("stopped"), Progress(sessionDurationMs, sessionDurationMs)])
        && (old(!paused && !(0.0 < sessionDurationMs <= currentReplayMs)) ==>
              && paused == !tickOk && lastWallClock == tick.wall
              && currentReplayMs == if !tickOk then old(currentReplayMs)
                                    else old(currentReplayMs) + (tick.wall - old(lastWallClock)) * 1000.0 * speed)
    {
      hide Finish, Apply, SendsWindow;
      if !running || activeSession.None? {
        conn := None;
        return;
      }
      if conn.None? {
        if !openOk {
          activeSession := None;
          return;
        }
        conn := Some(activeSession.value.log);
      }
      DrainCommands(clocks);
      FinishPass(tick, tickOk);
    }
  }
}
