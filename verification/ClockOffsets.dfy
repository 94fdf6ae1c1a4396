/**
 The cache of clock offsets, one per data source: a dictionary in insertion order with a
 size cap, a correction when a device clock drifts, and eviction of the first key when a
 new source finds the cache full.
 */
module ClockOffsets {
  import opened Options

  /** An insertion-ordered dictionary: its keys in order, and their values. */
  datatype State = State(order: seq<string>, offsets: map<string, real>)

  const EMPTY := State([], map[])

  const TOLERANCE := 2000.0

  const EPOCH_LIMIT := 100000000000.0

  datatype Event = Use(source: string, client: real, now: real) | Drop(ids: set<string>)

  ghost predicate Distinct(order: seq<string>) {
    forall i, j :: 0 <= i < j < |order| ==> order[i] != order[j]
  }

  ghost predicate Valid(s: State) {
    Distinct(s.order) && forall k :: k in s.order <==> k in s.offsets
  }

  function Without(order: seq<string>, k: string): (r: seq<string>)
    ensures forall x :: x in r <==> x in order && x != k
    ensures |r| <= |order| && (k in order ==> |r| < |order|) && (k !in order ==> r == order)
  {
    if order == [] then []
    else if order[0] == k then Without(order[1..], k)
    else [order[0]] + Without(order[1..], k)
  }

  function Pop(s: State, k: string): State {
    State(Without(s.order, k), s.offsets - {k})
  }

  /** Assigning to a key that is present keeps its place. */
  function Store(s: State, k: string, offset: real): State {
    State(if k in s.offsets then s.order else s.order + [k], s.offsets[k := offset])
  }

  predicate Agrees(offset: real, client: real, now: real) {
    -TOLERANCE <= client + offset - now <= TOLERANCE
  }

  /** The cached offset is there and still good. */
  predicate InTolerance(s: State, source: string, client: real, now: real) {
    source in s.offsets && Agrees(s.offsets[source], client, now)
  }

  predicate Evicts(s: State, cap: nat, source: string) {
    source !in s.offsets && |s.order| >= cap && s.order != []
  }

  /** `_get_offset`. */
  function Lookup(s: State, cap: nat, source: string, client: real, now: real): (State, real) {
    if InTolerance(s, source, client, now) then
      (Store(Pop(s, source), source, s.offsets[source]), s.offsets[source])
    else
      var room := if Evicts(s, cap, source) then Pop(s, s.order[0]) else s;
      (Store(room, source, now - client), now - client)
  }

  /** `_drop_time_offsets_for`. */
  function DropAll(s: State, ids: set<string>): State {
    State(Keeping(s.order, ids), s.offsets - ids)
  }

  function Keeping(order: seq<string>, gone: set<string>): (r: seq<string>)
    ensures forall x :: x in r <==> x in order && x !in gone
    ensures |r| <= |order|
  {
    if order == [] then []
    else if order[0] in gone then Keeping(order[1..], gone)
    else [order[0]] + Keeping(order[1..], gone)
  }

  function Next(s: State, cap: nat, e: Event): State {
    match e
    case Use(source, client, now) => Lookup(s, cap, source, client, now).0
    case Drop(ids) => DropAll(s, ids)
  }

  function Run(s: State, cap: nat, events: seq<Event>): State
    decreases |events|
  {
    if events == [] then s
    else Next(Run(s, cap, events[..|events| - 1]), cap, events[|events| - 1])
  }

  // ---------------------------------------------------------------- order of keys

  /** Every pair of keys, in order of position, is related. */
  ghost predicate Ascending(order: seq<string>, rank: map<string, nat>) {
    && (forall k :: k in order ==> k in rank)
    && forall i, j :: 0 <= i < j < |order| ==> rank[order[i]] < rank[order[j]]
  }

  lemma {:induction false} WithoutAscends(order: seq<string>, rank: map<string, nat>, k: string)
    requires Ascending(order, rank)
    ensures Ascending(Without(order, k), rank)
  {
    if order == [] {
    } else {
      var rest := order[1..];
      assert forall x :: x in rest ==> x in order;
      assert Ascending(rest, rank);
      WithoutAscends(rest, rank, k);
      if order[0] != k {
        AscendingCons(order[0], Without(rest, k), rank);
      }
    }
  }

  lemma {:induction false} KeepingAscends(order: seq<string>, rank: map<string, nat>, gone: set<string>)
    requires Ascending(order, rank)
    ensures Ascending(Keeping(order, gone), rank)
  {
    if order == [] {
    } else {
      var rest := order[1..];
      assert forall x :: x in rest ==> x in order;
      assert Ascending(rest, rank);
      KeepingAscends(rest, rank, gone);
      if order[0] !in gone {
        AscendingCons(order[0], Keeping(rest, gone), rank);
      }
    }
  }

  lemma AscendingCons(k: string, order: seq<string>, rank: map<string, nat>)
    requires Ascending(order, rank) && k in rank && forall x :: x in order ==> rank[k] < rank[x]
    ensures Ascending([k] + order, rank)
  {
    assert forall i :: 0 <= i < |order| ==> order[i] in order;
  }

  /** Moving one key to the end with a rank above all others. */
  lemma AscendingSnoc(order: seq<string>, rank: map<string, nat>, k: string, top: nat)
    requires Ascending(order, rank) && k !in order && forall x :: x in rank ==> rank[x] < top
    ensures Ascending(order + [k], rank[k := top])
  {
    assert forall i :: 0 <= i < |order| ==> order[i] in order;
  }

  lemma AscendingDistinct(order: seq<string>, rank: map<string, nat>)
    requires Ascending(order, rank)
    ensures Distinct(order)
  {
  }

  // ---------------------------------------------------------------- history

  /** The event inserts the source, or uses its offset within tolerance. A correction does neither. */
  predicate Touches(s: State, e: Event, k: string) {
    e.Use? && e.source == k && (k !in s.offsets || InTolerance(s, k, e.client, e.now))
  }

  /** How many events had happened when each source was last touched, over a run from the empty cache. */
  function LastTouch(cap: nat, events: seq<Event>): (rank: map<string, nat>)
    ensures forall k :: k in rank ==> rank[k] <= |events|
    decreases |events|
  {
    if events == [] then map[]
    else
      var before, e := events[..|events| - 1], events[|events| - 1];
      var rank := LastTouch(cap, before);
      if e.Use? && Touches(Run(EMPTY, cap, before), e, e.source) then rank[e.source := |events|] else rank
  }

  ghost predicate Ranked(s: State, rank: map<string, nat>) {
    Valid(s) && Ascending(s.order, rank)
  }

  /** What every step keeps: the dictionary is in order of last touch, and within its cap. */
  ghost predicate Inv(s: State, cap: nat, rank: map<string, nat>) {
    Ranked(s, rank) && |s.order| <= cap
  }

  lemma UseRanked(s: State, cap: nat, rank: map<string, nat>, e: Event, top: nat)
    requires e.Use? && Ranked(s, rank) && forall x :: x in rank ==> rank[x] < top
    ensures Ranked(Next(s, cap, e), if Touches(s, e, e.source) then rank[e.source := top] else rank)
  {
    hide Distinct, Ascending;
    var k, s' := e.source, Next(s, cap, e);
    if InTolerance(s, k, e.client, e.now) {
      WithoutAscends(s.order, rank, k);
      AscendingSnoc(Without(s.order, k), rank, k, top);
      AscendingDistinct(s'.order, rank[k := top]);
    } else if k !in s.offsets {
      var room := if Evicts(s, cap, k) then Pop(s, s.order[0]) else s;
      if Evicts(s, cap, k) {
        WithoutAscends(s.order, rank, s.order[0]);
      }
      AscendingSnoc(room.order, rank, k, top);
      AscendingDistinct(s'.order, rank[k := top]);
    }
  }

  lemma UseWithinCap(s: State, cap: nat, e: Event)
    requires e.Use? && Valid(s) && 0 < cap && |s.order| <= cap
    ensures |Next(s, cap, e).order| <= cap
  {
    hide Distinct;
  }

  lemma DropRanked(s: State, rank: map<string, nat>, ids: set<string>)
    requires Ranked(s, rank)
    ensures Ranked(DropAll(s, ids), rank)
  {
    hide Distinct, Ascending;
    KeepingAscends(s.order, rank, ids);
    AscendingDistinct(Keeping(s.order, ids), rank);
  }

  /**
   On every run from the empty cache: no more entries than the cap, and the keys stand in
   the order in which they were last inserted or used within tolerance.
   */
  lemma {:induction false} RunInv(cap: nat, events: seq<Event>)
    requires cap > 0
    ensures Inv(Run(EMPTY, cap, events), cap, LastTouch(cap, events))
    decreases |events|
  {
    if events == [] {
    } else {
      var before, e := events[..|events| - 1], events[|events| - 1];
      RunInv(cap, before);
      var s, rank := Run(EMPTY, cap, before), LastTouch(cap, before);
      hide Ranked, Valid, Next, Touches;
      if e.Use? {
        assert Valid(s) by { RankedValid(s, rank); }
        UseRanked(s, cap, rank, e, |events|);
        UseWithinCap(s, cap, e);
      } else {
        DropRanked(s, rank, e.ids);
        DropNext(s, cap, e);
      }
    }
  }

  lemma RankedValid(s: State, rank: map<string, nat>)
    requires Ranked(s, rank)
    ensures Valid(s)
  {
  }

  lemma DropNext(s: State, cap: nat, e: Event)
    requires e.Drop?
    ensures Next(s, cap, e) == DropAll(s, e.ids)
  {
  }

  /** A use evicts a source exactly when the cache is full, the user is new, and the source comes first. */
  lemma EvictionExactly(s: State, cap: nat, e: Event, k: string)
    requires e.Use? && Valid(s) && k in s.offsets
    ensures k !in Next(s, cap, e).offsets <==> Evicts(s, cap, e.source) && k == s.order[0]
  {
  }

  /**
   The evicted source is the one whose last insertion or in-tolerance use is oldest, and it
   goes only when the cache is full.
   */
  lemma EvictsLeastRecentlyTouched(cap: nat, events: seq<Event>, e: Event, victim: string, other: string)
    requires cap > 0 && e.Use?
    requires var s := Run(EMPTY, cap, events);
             && victim in s.offsets && victim !in Next(s, cap, e).offsets
             && other in s.offsets && other != victim
    ensures var rank := LastTouch(cap, events);
            && victim in rank && other in rank && rank[victim] < rank[other]
            && |Run(EMPTY, cap, events).order| == cap
  {
    var s := Run(EMPTY, cap, events);
    hide Run, LastTouch, Next;
    RunInv(cap, events);
    EvictionExactly(s, cap, e, victim);
    assert other in s.order;
    var j :| 0 <= j < |s.order| && s.order[j] == other;
    assert s.order[0] == victim;
  }

  /**
   A drift correction does not refresh a source: the first source of a full cache, used
   once more just before a new source arrives, survives exactly when that use was within
   tolerance.
   */
  lemma CorrectionDoesNotRefresh(s: State, cap: nat, first: Event, newcomer: Event)
    requires Valid(s) && |s.order| == cap >= 2 && first.Use? && newcomer.Use?
    requires first.source == s.order[0] && newcomer.source !in s.offsets
    ensures first.source in Next(Next(s, cap, first), cap, newcomer).offsets <==>
            InTolerance(s, first.source, first.client, first.now)
  {
    var s1 := Next(s, cap, first);
    assert first.source in s.offsets;
    if InTolerance(s, first.source, first.client, first.now) {
      WithoutHead(s.order);
      assert s1.order == s.order[1..] + [first.source];
      assert s1.order[0] == s.order[1];
      assert s.order[0] != s.order[1];
    } else {
      assert s1.order == s.order;
    }
  }

  lemma WithoutHead(order: seq<string>)
    requires order != [] && Distinct(order)
    ensures Without(order, order[0]) == order[1..]
  {
    assert order[0] !in order[1..];
  }

  // ---------------------------------------------------------------- what callers get

  /** The returned offset always puts the client's time within the tolerance of the server's. */
  lemma OffsetIsClose(s: State, cap: nat, source: string, client: real, now: real)
    ensures Agrees(Lookup(s, cap, source, client, now).1, client, now)
    ensures source in Lookup(s, cap, source, client, now).0.offsets
    ensures Lookup(s, cap, source, client, now).0.offsets[source] == Lookup(s, cap, source, client, now).1
  {
  }

  /** The source is used within tolerance and never dropped or evicted along the run. */
  ghost predicate Undisturbed(s: State, cap: nat, events: seq<Event>, source: string)
    decreases |events|
  {
    events == [] ||
    var before, e := events[..|events| - 1], events[|events| - 1];
    && Undisturbed(s, cap, before, source)
    && (e.Use? && e.source == source ==> InTolerance(Run(s, cap, before), source, e.client, e.now))
    && source in Next(Run(s, cap, before), cap, e).offsets
  }

  lemma KeepsValid(s: State, cap: nat, e: Event)
    requires Valid(s)
    ensures Valid(Next(s, cap, e))
  {
    var rank := Positions(s.order);
    PositionsAscend(s.order);
    assert Ranked(s, rank);
    hide Valid, Ascending, Touches, Positions;
    if e.Use? {
      UseRanked(s, cap, rank, e, |s.order|);
      RankedValid(Next(s, cap, e), if Touches(s, e, e.source) then rank[e.source := |s.order|] else rank);
    } else {
      DropRanked(s, rank, e.ids);
      RankedValid(DropAll(s, e.ids), rank);
    }
  }

  /** Each key ranked by its place. */
  ghost function Positions(order: seq<string>): map<string, nat> {
    map k | k in order :: PlaceOf(order, k)
  }

  function PlaceOf(order: seq<string>, k: string): (i: nat)
    requires k in order
    ensures i < |order| && order[i] == k
  {
    if order[0] == k then 0 else 1 + PlaceOf(order[1..], k)
  }

  lemma PositionsAscend(order: seq<string>)
    requires Distinct(order)
    ensures Ascending(order, Positions(order))
    ensures forall k :: k in Positions(order) ==> Positions(order)[k] < |order|
  {
    forall i, j | 0 <= i < j < |order| ensures PlaceOf(order, order[i]) < PlaceOf(order, order[j]) {
      assert PlaceOf(order, order[i]) == i && PlaceOf(order, order[j]) == j;
    }
  }

  lemma {:induction false} RunValid(s: State, cap: nat, events: seq<Event>)
    requires Valid(s)
    ensures Valid(Run(s, cap, events))
    decreases |events|
  {
    hide Valid, Next;
    if events == [] {
    } else {
      RunValid(s, cap, events[..|events| - 1]);
      KeepsValid(Run(s, cap, events[..|events| - 1]), cap, events[|events| - 1]);
    }
  }

  /** An undisturbed source keeps one offset, whatever other sources do. */
  lemma {:induction false} OffsetConstant(s: State, cap: nat, events: seq<Event>, source: string)
    requires Valid(s) && source in s.offsets && Undisturbed(s, cap, events, source)
    ensures source in Run(s, cap, events).offsets && Run(s, cap, events).offsets[source] == s.offsets[source]
    decreases |events|
  {
    if events == [] {
    } else {
      var before, e := events[..|events| - 1], events[|events| - 1];
      OffsetConstant(s, cap, before, source);
      var mid := Run(s, cap, before);
      hide Run, Undisturbed, Distinct;
      assert Next(mid, cap, e).offsets[source] == mid.offsets[source];
    }
  }

  /**
   Between two readings of an undisturbed source the server times are exactly as far apart
   as the client times.
   */
  lemma SpansAreExact(s: State, cap: nat, first: Event, events: seq<Event>, last: Event)
    requires Valid(s) && first.Use? && last.Use? && first.source == last.source
    requires var s1 := Next(s, cap, first);
             Undisturbed(s1, cap, events, first.source) &&
             InTolerance(Run(s1, cap, events), last.source, last.client, last.now)
    ensures var s1 := Next(s, cap, first);
            var a := first.client + Lookup(s, cap, first.source, first.client, first.now).1;
            var b := last.client + Lookup(Run(s1, cap, events), cap, last.source, last.client, last.now).1;
            b - a == last.client - first.client
  {
    hide Valid, Run, Undisturbed, InTolerance, Store, Pop;
    var s1 := Next(s, cap, first);
    OffsetIsClose(s, cap, first.source, first.client, first.now);
    KeepsValid(s, cap, first);
    OffsetConstant(s1, cap, events, first.source);
    assert InTolerance(Run(s1, cap, events), last.source, last.client, last.now);
  }

  // ---------------------------------------------------------------- timestamps of a payload

  /** The time fields of a payload; `None` for a field that is missing or no finite number. */
  datatype Times =
    | Linear(startTime: Option<real>, endTime: Option<real>)
    | Points(timestamp: Option<real>, timestamps: seq<Option<real>>)

  predicate AllNumbers(ts: seq<Option<real>>) {
    forall t :: t in ts ==> t.Some?
  }

  function ShiftAll(ts: seq<Option<real>>, offset: real): (r: seq<Option<real>>)
    requires AllNumbers(ts)
    ensures |r| == |ts| && AllNumbers(r)
    ensures forall i :: 0 <= i < |ts| ==> r[i] == Some(ts[i].value + offset)
  {
    if ts == [] then [] else ShiftAll(ts[..|ts| - 1], offset) + [Some(ts[|ts| - 1].value + offset)]
  }

  predicate ClientTime(t: Option<real>) {
    t.Some? && t.value < EPOCH_LIMIT
  }

  predicate HasBatch(tm: Times) {
    tm.Points? && tm.timestamps != [] && AllNumbers(tm.timestamps) && ClientTime(tm.timestamps[0])
  }

  /**
   What normalisation promises for the fields it rewrites: times below 1e11 are client times,
   and they come out within two seconds of `now`, as far apart as they went in.
   */
  ghost predicate Normalised(before: Times, after: Times, now: real, rewritten: bool) {
    match before
    case Linear(start, end) =>
      && after.Linear?
      && rewritten == (start.Some? && end.Some? && end.value < 100000000000.0)
      && (!rewritten ==> after == before)
      && (rewritten ==>
            && after.startTime.Some? && after.endTime.Some?
            && after.endTime.value - after.startTime.value == end.value - start.value
            && -2000.0 <= after.endTime.value - now <= 2000.0)
    case Points(stamp, stamps) =>
      var batch := stamps != [] && (forall t :: t in stamps ==> t.Some?) && stamps[0].value < 100000000000.0;
      var single := stamp.Some? && stamp.value < 100000000000.0;
      && after.Points?
      && |after.timestamps| == |stamps|
      && rewritten == (single || batch)
      && (batch ==>
            && (forall t :: t in after.timestamps ==> t.Some?)
            && after.timestamp == after.timestamps[0]
            && -2000.0 <= after.timestamps[0].value - now <= 2000.0
            && forall i, j :: 0 <= i < j < |stamps| ==>
                 after.timestamps[j].value - after.timestamps[i].value == stamps[j].value - stamps[i].value)
      && (!batch ==> after.timestamps == stamps)
      && (!batch && single ==> after.timestamp.Some? && -2000.0 <= after.timestamp.value - now <= 2000.0)
      && (!rewritten ==> after == before)
  }

  /** The uses of the cache one payload makes, in order. */
  function Uses(source: string, tm: Times, now: real): seq<Event> {
    match tm
    case Linear(start, end) =>
      if start.Some? && ClientTime(end) then [Use(source, end.value, now)] else []
    case Points(stamp, stamps) =>
      (if ClientTime(stamp) then [Use(source, stamp.value, now)] else [])
      + (if HasBatch(tm) then [Use(source, stamps[0].value, now)] else [])
  }

  /** The time a payload is anchored by: its end, its first sample, or its only timestamp. */
  function AnchorOf(tm: Times): Option<real> {
    match tm
    case Linear(_, end) => end
    case Points(stamp, stamps) => if HasBatch(tm) then stamps[0] else stamp
  }

  lemma RunNone(s: State, cap: nat)
    ensures Run(s, cap, []) == s
  {
  }

  lemma RunOne(s: State, cap: nat, e: Event)
    ensures Run(s, cap, [e]) == Next(s, cap, e)
  {
    assert [e][..0] == [];
  }

  lemma RunTwo(s: State, cap: nat, e: Event, f: Event)
    ensures Run(s, cap, [e] + [f]) == Next(Next(s, cap, e), cap, f)
  {
    RunOne(s, cap, e);
    assert ([e] + [f])[..1] == [e];
  }

  class OffsetCache {
    var order: seq<string>
    var offsets: map<string, real>
    const cap: nat

    ghost function Abs(): State
      reads this
    {
      State(order, offsets)
    }

    /** The cap comes from the environment and is never below 256. */
    constructor (setting: int)
      ensures Abs() == EMPTY && cap >= 256 && (setting >= 256 ==> cap == setting)
    {
      order, offsets := [], map[];
      cap := if setting > 256 then setting else 256;
    }

    method DropTimeOffsetsFor(ids: set<string>)
      modifies this
      ensures Abs() == DropAll(old(Abs()), ids)
    {
      var todo := ids;
      KeepAll(order);
      assert ids - todo == {};
      while todo != {}
        invariant todo <= ids
        invariant order == Keeping(old(order), ids - todo)
        invariant offsets == old(offsets) - (ids - todo)
      {
        var id :| id in todo;
        KeepingWithout(old(order), ids - todo, id);
        assert ids - (todo - {id}) == (ids - todo) + {id};
        todo := todo - {id};
        order := Without(order, id);
        offsets := offsets - {id};
      }
      assert ids - todo == ids;
    }

    method GetOffset(source: string, client: real, now: real) returns (offset: real)
      modifies this
      ensures (Abs(), offset) == Lookup(old(Abs()), cap, source, client, now)
      ensures source in offsets && offsets[source] == offset
      ensures source in old(offsets) && -2000.0 <= client + old(offsets)[source] - now <= 2000.0 ==>
                offset == old(offsets)[source] && order != [] && order[|order| - 1] == source
      ensures !(source in old(offsets) && -2000.0 <= client + old(offsets)[source] - now <= 2000.0) ==>
                offset == now - client
      ensures source in old(offsets) && !(-2000.0 <= client + old(offsets)[source] - now <= 2000.0) ==>
                order == old(order)
      ensures source !in old(offsets) && (|old(order)| < cap || old(order) == []) ==> order == old(order) + [source]
      ensures source !in old(offsets) && |old(order)| >= cap && old(order) != [] && old(order)[0] != source ==>
                old(order)[0] !in offsets && old(order)[0] !in order && order[|order| - 1] == source
      ensures forall k :: k in offsets && k != source ==> k in old(offsets) && offsets[k] == old(offsets)[k]
    {
      if source !in offsets || client + offsets[source] - now > TOLERANCE || client
          + offsets[source] - now < -TOLERANCE {
        offset := now - client;
        if source !in offsets && |order| >= cap && order != [] {
          var oldest := order[0];
          order, offsets := Without(order, oldest), offsets - {oldest};
        }
        if source !in offsets {
          order := order + [source];
        }
        offsets := offsets[source := offset];
      } else {
        offset := offsets[source];
        order, offsets := Without(order, source), offsets - {source};
        order, offsets := order + [source], offsets[source := offset];
      }
    }

    /** The normalisation of time fields in `handle_data_stream`. */
    method NormaliseTimes(source: string, tm: Times, now: real) returns (r: Times, rewritten: bool)
      modifies this
      ensures Normalised(tm, r, now, rewritten)
      ensures Abs() == Run(old(Abs()), cap, Uses(source, tm, now))
      ensures rewritten ==>
                && source in offsets && AnchorOf(tm).Some?
                && (if r.Linear? then r.endTime else r.timestamp) == Some(AnchorOf(tm).value + offsets[source])
      ensures rewritten && tm.Linear? ==> source in offsets && r.endTime.value == tm.endTime.value + offsets[source]
    {
      hide Run, Next, Lookup;
      ghost var s := Abs();
      RunNone(s, cap);
      r, rewritten := tm, false;
      if tm.Linear? {
        if tm.startTime.Some? && ClientTime(tm.endTime) {
          RunOne(s, cap, Use(source, tm.endTime.value, now));
          var offset := OffsetFor(source, tm.endTime.value, now);
          r := Linear(Some(tm.startTime.value + offset), Some(tm.endTime.value + offset));
          rewritten := true;
        }
      } else {
        ghost var first := if ClientTime(tm.timestamp) then [Use(source, tm.timestamp.value, now)] else [];
        assert first + [] == first;
        if ClientTime(tm.timestamp) {
          RunOne(s, cap, Use(source, tm.timestamp.value, now));
          var offset := OffsetFor(source, tm.timestamp.value, now);
          r := r.(timestamp := Some(tm.timestamp.value + offset));
          rewritten := true;
        }
        if tm.timestamps != [] && AllNumbers(tm.timestamps) && ClientTime(tm.timestamps[0]) {
          ghost var second := Use(source, tm.timestamps[0].value, now);
          if ClientTime(tm.timestamp) {
            RunTwo(s, cap, first[0], second);
          } else {
            assert first + [second] == [second];
            RunOne(s, cap, second);
          }
          var offset := OffsetFor(source, tm.timestamps[0].value, now);
          var shifted := ShiftAll(tm.timestamps, offset);
          r := Points(shifted[0], shifted);
          rewritten := true;
        }
      }
    }

    method OffsetFor(source: string, client: real, now: real) returns (offset: real)
      modifies this
      ensures Abs() == Next(old(Abs()), cap, Use(source, client, now))
      ensures Agrees(offset, client, now) && source in offsets && offsets[source] == offset
    {
      ghost var s := Abs();
      offset := GetOffset(source, client, now);
      OffsetIsClose(s, cap, source, client, now);
    }
  }

  lemma {:induction false} KeepAll(order: seq<string>)
    ensures Keeping(order, {}) == order
  {
    if order == [] {
    } else {
      KeepAll(order[1..]);
    }
  }

  lemma {:induction false} KeepingWithout(order: seq<string>, gone: set<string>, id: string)
    ensures Without(Keeping(order, gone), id) == Keeping(order, gone + {id})
  {
    if order == [] {
    } else {
      KeepingWithout(order[1..], gone, id);
      if order[0] !in gone {
        assert ([order[0]] + Keeping(order[1..], gone))[1..] == Keeping(order[1..], gone);
      }
    }
  }
}
