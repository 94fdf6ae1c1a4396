/**
 The replay thread section by section. A pass of its main loop opens the database, takes the
 queued commands one by one, checks whether a session is still loaded, and then ticks; other
 handlers load sessions, queue commands and set the speed between any two of these sections.
 `Replayer.Next` is the case in which nothing comes in between.
 */
module ReplayThread {
  import opened Options
  import opened SessionLog
  import opened Replayer

  /** Where the thread stands in its loop; `Draining` holds the queue's lock. */
  datatype Phase = AtTop | Draining | Drained | Checked

  datatype Thread = Thread(player: Player, phase: Phase)

  /** A request of another handler, or the thread's next section with what the clock and the database answer. */
  datatype Section =
    | Request(event: Event)
    | Turn(openOk: bool, clock: Reading, readOk: bool)

  /** Other handlers do not run passes, and cannot queue a command while the queue is locked. */
  predicate Allowed(t: Thread, x: Section) {
    x.Request? ==> !x.event.Pass? && !x.event.CannotOpen? && (x.event.Control? ==> !t.phase.Draining?)
  }

  /** After the top of the loop the thread has a connection. */
  predicate Connected(t: Thread) {
    !t.phase.AtTop? ==> t.player.conn.Some?
  }

  function TopOfLoop(p: Player, openOk: bool): Thread {
    if NeedsOpening(p) && !openOk then Thread(p.(active := None), AtTop)
    else
      var c := Connect(p);
      Thread(c, if c.conn.Some? then Draining else AtTop)
  }

  function TakeCommand(p: Player, clock: Reading): Thread
    requires p.conn.Some?
  {
    if p.queue == [] then Thread(p, Drained)
    else Thread(Apply(p.(queue := p.queue[1..]), p.queue[0], clock), Draining)
  }

  /** The check after the drain closes the connection of an unloaded session. */
  function CheckLoaded(p: Player): Thread {
    if !p.running || p.active.None? then Thread(p.(conn := None), AtTop) else Thread(p, Checked)
  }

  function Next(t: Thread, x: Section): (n: Thread)
    requires Connected(t) && Allowed(t, x)
    ensures Connected(n)
  {
    match x
    case Request(e) => Thread(Replayer.Next(t.player, e), t.phase)
    case Turn(openOk, clock, readOk) =>
      match t.phase
      case AtTop => TopOfLoop(t.player, openOk)
      case Draining => TakeKeepsConnection(t.player, clock); TakeCommand(t.player, clock)
      case Drained => CheckLoaded(t.player)
      case Checked => Thread(Tail(t.player, clock, readOk), AtTop)
  }

  lemma TakeKeepsConnection(p: Player, clock: Reading)
    requires p.conn.Some?
    ensures TakeCommand(p, clock).player.conn == p.conn
  {
  }

  /** The clock does not run backwards between the reading a tick starts from and its own. */
  predicate ClockOk(t: Thread, x: Section) {
    x.Turn? && t.phase.Checked? && !t.player.paused && !AtEnd(t.player) ==> t.player.lastWall <= x.clock.wall
  }

  ghost predicate GoodRun(t: Thread, xs: seq<Section>)
    decreases |xs|
  {
    xs == [] || (Connected(t) && Allowed(t, xs[0]) && ClockOk(t, xs[0]) && GoodRun(Next(t, xs[0]), xs[1..]))
  }

  function Run(t: Thread, xs: seq<Section>): (n: Thread)
    requires GoodRun(t, xs)
    ensures Connected(t) ==> Connected(n)
    decreases |xs|
  {
    if xs == [] then t else Run(Next(t, xs[0]), xs[1..])
  }

  const NEW := Thread(FRESH, AtTop)

  // ---------------------------------------------------------------- the run invariant

  /** Once checked, the session stays loaded until the tick: only the thread itself unloads. */
  ghost predicate Guarded(t: Thread) {
    Connected(t) && (t.phase.Checked? ==> t.player.running && t.player.active.Some?)
  }

  lemma NextGuarded(t: Thread, x: Section)
    requires Guarded(t) && Allowed(t, x)
    ensures Guarded(Next(t, x))
  {
    hide Apply, Tail, Connect;
  }

  lemma TailConsistent(p: Player, tick: Reading, ok: bool, hi: real) returns (hi': real)
    requires p.conn.Some? && p.running && p.active.Some? && Consistent(p, hi)
    requires !p.paused && !AtEnd(p) ==> p.lastWall <= tick.wall
    ensures Consistent(Tail(p, tick, ok), hi')
  {
    hide Tail, Consistent;
    hi' := FinishConsistent(p, tick, ok, hi);
  }

  lemma NextConsistent(t: Thread, x: Section, hi: real) returns (hi': real)
    requires Guarded(t) && Allowed(t, x) && ClockOk(t, x) && Consistent(t.player, hi)
    ensures Consistent(Next(t, x).player, hi')
  {
    hi' := hi;
    match x {
      case Request(e) =>
        hide Consistent;
        hi' := Replayer.NextConsistent(t.player, e, hi);
      case Turn(openOk, clock, readOk) =>
        match t.phase {
          case AtTop =>
            ConnectConsistent(t.player, hi);
            if NeedsOpening(t.player) && !openOk {
              PathConsistent(t.player, None, hi);
            }
          case Draining =>
            if t.player.queue != [] {
              var q := t.player.(queue := t.player.queue[1..]);
              assert Consistent(q, hi);
              hi' := ApplyConsistent(q, t.player.queue[0], clock, hi);
            }
          case Drained =>
          case Checked =>
            hi' := TailConsistent(t.player, clock, readOk, hi);
        }
    }
  }

  lemma {:induction false} RunConsistentFrom(t: Thread, xs: seq<Section>, hi: real) returns (hi': real)
    requires GoodRun(t, xs) && Guarded(t) && Consistent(t.player, hi)
    ensures Consistent(Run(t, xs).player, hi')
    decreases |xs|
  {
    hi' := hi;
    if xs == [] {
    } else {
      hide Consistent, Next, Guarded, ClockOk;
      NextGuarded(t, xs[0]);
      var h := NextConsistent(t, xs[0], hi);
      hi' := RunConsistentFrom(Next(t, xs[0]), xs[1..], h);
    }
  }

  /** The run invariant holds after every section, with loads, commands and speed changes anywhere in a pass. */
  lemma RunInvariant(xs: seq<Section>)
    requires GoodRun(NEW, xs)
    ensures exists hi :: Consistent(Run(NEW, xs).player, hi)
  {
    var hi := RunConsistentFrom(NEW, xs, 0.0);
  }

  // ---------------------------------------------------------------- passes

  /** The session is still loaded, so a pass goes on to its tail. */
  predicate GoesOn(d: Player) {
    d.running && d.active.Some?
  }

  /** The last turns of a pass: the check, and the tail if it goes on. */
  function LastTurns(goesOn: bool, tick: Reading, ok: bool): seq<Section> {
    if goesOn then [Turn(true, tick, ok), Turn(true, tick, ok)] else [Turn(true, tick, ok)]
  }

  /** The turns of a pass: the top, one per queued command, one that finds the queue empty, and the last. */
  function PassTurns(clocks: seq<Reading>, tick: Reading, ok: bool, goesOn: bool): seq<Section> {
    [Turn(true, tick, true)] + DrainTurns(clocks, tick) + LastTurns(goesOn, tick, ok)
  }

  function DrainTurns(clocks: seq<Reading>, tick: Reading): seq<Section>
    decreases |clocks|
  {
    if clocks == [] then [Turn(true, tick, true)] else [Turn(true, clocks[0], true)] + DrainTurns(clocks[1..], tick)
  }

  /** Taking the commands one by one is the drain. */
  lemma {:induction false} DrainIsTurns(p: Player, clocks: seq<Reading>, tick: Reading)
    requires p.conn.Some? && |clocks| == |p.queue|
    ensures GoodRun(Thread(p, Draining), DrainTurns(clocks, tick))
    ensures Run(Thread(p, Draining), DrainTurns(clocks, tick)) == Thread(Drain(p, clocks), Drained)
    decreases |clocks|
  {
    hide Apply;
    var t := Thread(p, Draining);
    if clocks == [] {
      assert DrainTurns(clocks, tick)[1..] == [];
    } else {
      var q := p.(queue := p.queue[1..]);
      ApplyKeeps(q, p.queue[0], clocks[0]);
      var n := Apply(q, p.queue[0], clocks[0]);
      assert Next(t, Turn(true, clocks[0], true)) == Thread(n, Draining);
      DrainIsTurns(n, clocks[1..], tick);
      assert DrainTurns(clocks, tick)[1..] == DrainTurns(clocks[1..], tick);
    }
  }

  lemma {:induction false} RunConcat(t: Thread, xs: seq<Section>, ys: seq<Section>)
    requires GoodRun(t, xs) && GoodRun(Run(t, xs), ys)
    ensures GoodRun(t, xs + ys) && Run(t, xs + ys) == Run(Run(t, xs), ys)
    decreases |xs|
  {
    if xs == [] {
      assert xs + ys == ys;
    } else {
      hide Next, ClockOk;
      assert (xs + ys)[0] == xs[0] && (xs + ys)[1..] == xs[1..] + ys;
      RunConcat(Next(t, xs[0]), xs[1..], ys);
    }
  }

  lemma TurnOnce(t: Thread, x: Section)
    requires Connected(t) && Allowed(t, x) && ClockOk(t, x)
    ensures GoodRun(t, [x]) && Run(t, [x]) == Next(t, x)
  {
    hide Next;
    assert [x][1..] == [];
  }

  lemma FirstTurn(p: Player, tick: Reading)
    requires Connect(p).conn.Some?
    ensures GoodRun(Thread(p, AtTop), [Turn(true, tick, true)])
    ensures Run(Thread(p, AtTop), [Turn(true, tick, true)]) == Thread(Connect(p), Draining)
  {
    TurnOnce(Thread(p, AtTop), Turn(true, tick, true));
  }

  lemma LastTurnsFinish(d: Player, tick: Reading, ok: bool)
    requires d.conn.Some? && (Playing(d) && !AtEnd(d) ==> d.lastWall <= tick.wall)
    ensures GoodRun(Thread(d, Drained), LastTurns(GoesOn(d), tick, ok))
    ensures Run(Thread(d, Drained), LastTurns(GoesOn(d), tick, ok)) == Thread(Finish(d, tick, ok), AtTop)
  {
    hide Tail;
    var x := Turn(true, tick, ok);
    if GoesOn(d) {
      assert Next(Thread(d, Drained), x) == Thread(d, Checked);
      TurnOnce(Thread(d, Checked), x);
      assert [x, x][1..] == [x];
    } else {
      TurnOnce(Thread(d, Drained), x);
    }
  }

  /** With no other handler in between, the sections of a pass are one `Pass`. */
  lemma PassIsSections(p: Player, clocks: seq<Reading>, tick: Reading, ok: bool)
    requires Connect(p).conn.Some? && Enough(p, Pass(clocks, tick, ok)) && Replayer.ClockOk(p, Pass(clocks, tick, ok))
    ensures var turns := PassTurns(clocks, tick, ok, GoesOn(Drain(Connect(p), clocks)));
            && GoodRun(Thread(p, AtTop), turns)
            && Run(Thread(p, AtTop), turns) == Thread(Replayer.Next(p, Pass(clocks, tick, ok)), AtTop)
  {
    var c := Connect(p);
    var d := Drain(c, clocks);
    var first, last := [Turn(true, tick, true)], LastTurns(GoesOn(d), tick, ok);
    hide Drain, Finish, DrainTurns, LastTurns, Run, GoodRun, Next, Connect, GoesOn;
    FirstTurn(p, tick);
    DrainIsTurns(c, clocks, tick);
    LastTurnsFinish(d, tick, ok);
    RunConcat(Thread(p, AtTop), first, DrainTurns(clocks, tick));
    RunConcat(Thread(p, AtTop), first + DrainTurns(clocks, tick), last);
  }

  // ---------------------------------------------------------------- which log is played

  /** A load finds no open connection, or one to the very log it loads. */
  ghost predicate LoadsOntoNothing(t: Thread, x: Section) {
    x.Request? && Repoints(t.player, x.event) && t.player.conn.Some? ==> t.player.conn.value == x.event.session.log
  }

  lemma TakeCommandFaithful(p: Player, clock: Reading)
    requires p.conn.Some? && Faithful(p)
    ensures Faithful(TakeCommand(p, clock).player)
  {
  }

  /** A section keeps the open connection on the loaded session exactly when it is no load onto another one. */
  lemma NextFaithful(t: Thread, x: Section)
    requires Guarded(t) && Allowed(t, x) && Faithful(t.player)
    ensures Faithful(Next(t, x).player) <==> LoadsOntoNothing(t, x)
  {
    match x {
      case Request(e) =>
        hide Faithful, Replayer.Next;
        FaithfulStep(t.player, e);
      case Turn(openOk, clock, readOk) =>
        hide Apply;
        if t.phase.Draining? {
          TakeCommandFaithful(t.player, clock);
        }
    }
  }

  ghost predicate FaithfulAlong(t: Thread, xs: seq<Section>)
    requires GoodRun(t, xs)
    decreases |xs|
  {
    xs == [] || (Faithful(Next(t, xs[0]).player) && FaithfulAlong(Next(t, xs[0]), xs[1..]))
  }

  ghost predicate LoadsAlong(t: Thread, xs: seq<Section>)
    requires GoodRun(t, xs)
    decreases |xs|
  {
    xs == [] || (LoadsOntoNothing(t, xs[0]) && LoadsAlong(Next(t, xs[0]), xs[1..]))
  }

  /** On every run the loaded session is the one played throughout exactly when no load finds another open. */
  lemma {:induction false} RunFaithful(t: Thread, xs: seq<Section>)
    requires GoodRun(t, xs) && Guarded(t) && Faithful(t.player)
    ensures FaithfulAlong(t, xs) <==> LoadsAlong(t, xs)
    decreases |xs|
  {
    if xs == [] {
    } else {
      hide Next, Faithful, LoadsOntoNothing, Guarded, ClockOk;
      NextFaithful(t, xs[0]);
      NextGuarded(t, xs[0]);
      if LoadsOntoNothing(t, xs[0]) {
        RunFaithful(Next(t, xs[0]), xs[1..]);
      }
    }
  }

  /** While `running` is false, a connection is open exactly between the unload and the check after the drain. */
  ghost predicate OpenInGap(t: Thread) {
    !t.player.running ==> (t.player.conn.Some? <==> t.phase.Draining? || t.phase.Drained?)
  }

  lemma NextOpenInGap(t: Thread, x: Section)
    requires Guarded(t) && Allowed(t, x) && OpenInGap(t)
    ensures OpenInGap(Next(t, x))
  {
    hide EmitRange, Step;
  }

  lemma {:induction false} RunOpenInGap(t: Thread, xs: seq<Section>)
    requires GoodRun(t, xs) && Guarded(t) && OpenInGap(t)
    ensures OpenInGap(Run(t, xs)) && Guarded(Run(t, xs))
    decreases |xs|
  {
    if xs == [] {
    } else {
      hide Next, Guarded, OpenInGap, ClockOk;
      NextGuarded(t, xs[0]);
      NextOpenInGap(t, xs[0]);
      RunOpenInGap(Next(t, xs[0]), xs[1..]);
    }
  }

  /**
   `running` being false is not enough for a caller: after every run, a load that sees it
   false plays its own session exactly when the thread does not stand between the unload
   and the check that closes the connection, or the session is the one still open.
   */
  lemma LoadAtRestExactly(xs: seq<Section>, session: Session)
    requires GoodRun(NEW, xs) && !Run(NEW, xs).player.running && LoadOutcome(session) == LoadOk
    ensures var t := Run(NEW, xs);
            Faithful(Next(t, Request(Load(session))).player) <==>
              t.phase.AtTop? || t.player.conn == Some(session.log)
  {
    hide Run, GoodRun;
    assert Guarded(NEW) && OpenInGap(NEW);
    RunOpenInGap(NEW, xs);
    var t := Run(NEW, xs);
    assert Faithful(t.player);
    NextFaithful(t, Request(Load(session)));
  }
}
