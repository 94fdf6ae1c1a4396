/**
 Routing a data source to the actuators linked to it: per-route re-chunking into buffers of
 a fixed size, and a per-route rate limit. Routes are described one at a time (`Step`); the
 tables keep one route state per (source, actuator) pair.
 */
module Routing {
  import opened Options

  /** An element of a payload: a finite number, or anything else. */
  datatype Item = Number(v: real) | Junk

  type Time = Option<real>

  /** A missing list of values is empty. */
  datatype Payload = Payload(value: Item, samples: seq<Item>, startTime: Time, endTime: Time, timestamp: Time)

  /** What an actuator's configuration says about a rate: a number, nothing, or text that is no number. */
  datatype Rate = Absent | Hz(hz: real) | Unreadable

  datatype Config = Config(accepts: set<string>, sampleRate: Rate, maxRateHz: Rate, maxBufferSize: Option<int>)

  datatype Prefs = Prefs(scalarOnly: bool, minInterval: real, maxBuffer: Option<int>)

  /** `a or b` on optional numbers, where zero counts as missing. */
  function Either(a: Time, b: Time): Time {
    if a.Some? && a.value != 0.0 then a else b
  }

  function EitherRate(a: Rate, b: Rate): Rate {
    if a == Absent || a == Hz(0.0) then b else a
  }

  /** A rate counts when it is a positive number: then intervals and rate are reciprocal. */
  function DeliveryPrefs(c: Config): (p: Prefs)
    ensures p.scalarOnly <==>
              c.accepts != {} && forall a :: a in c.accepts ==> a != "array" && a != "values" && a != "stream"
    ensures p.minInterval > 0.0 <==>
              EitherRate(c.sampleRate, c.maxRateHz).Hz? && EitherRate(c.sampleRate, c.maxRateHz).hz > 0.0
    ensures p.minInterval > 0.0 ==> p.minInterval * EitherRate(c.sampleRate, c.maxRateHz).hz == 1.0
    ensures p.minInterval >= 0.0 && p.maxBuffer == c.maxBufferSize
    ensures c.sampleRate.Hz? && c.sampleRate.hz > 0.0 ==> p.minInterval * c.sampleRate.hz == 1.0
    ensures c.sampleRate == Unreadable || (c.sampleRate.Hz? && c.sampleRate.hz < 0.0) ==> p.minInterval == 0.0
    ensures c.sampleRate == Absent || c.sampleRate == Hz(0.0) ==>
              if c.maxRateHz.Hz? && c.maxRateHz.hz > 0.0 then p.minInterval * c.maxRateHz.hz == 1.0
              else p.minInterval == 0.0
  {
    var rate := EitherRate(c.sampleRate, c.maxRateHz);
    Prefs(
      c.accepts != {} && c.accepts !! {"array", "values", "stream"},
      if rate.Hz? && rate.hz > 0.0 then 1.0 / rate.hz else 0.0,
      c.maxBufferSize)
  }

  // ---------------------------------------------------------------- one payload

  function LastNumber(items: seq<Item>): Option<real> {
    if items == [] then None
    else if items[|items| - 1].Number? then Some(items[|items| - 1].v)
    else LastNumber(items[..|items| - 1])
  }

  function Observed(p: Payload): real {
    if p.value.Number? then p.value.v else LastNumber(p.samples).GetOr(0.0)
  }

  /** `r` is the value if that is a number, else the last number listed, else 0. */
  ghost predicate Picked(p: Payload, r: real) {
    && (p.value.Number? ==> r == p.value.v)
    && (p.value.Junk? ==>
          || (r == 0.0 && forall k :: 0 <= k < |p.samples| ==> p.samples[k].Junk?)
          || exists i :: 0 <= i < |p.samples| && p.samples[i] == Number(r)
                         && forall k :: i < k < |p.samples| ==> p.samples[k].Junk?)
  }

  method PickObservedValue(p: Payload) returns (r: real)
    ensures Picked(p, r) && r == Observed(p)
  {
    if p.value.Number? {
      return p.value.v;
    }
    assert p.samples[..|p.samples|] == p.samples;
    for i := |p.samples| downto 0
      invariant forall k :: i <= k < |p.samples| ==> p.samples[k].Junk?
      invariant LastNumber(p.samples) == LastNumber(p.samples[..i])
    {
      assert p.samples[..i + 1][..i] == p.samples[..i];
      if p.samples[i].Number? {
        return p.samples[i].v;
      }
    }
    return 0.0;
  }

  /** The samples a payload adds to a buffer: its list, or else one observed value. */
  function Contribution(p: Payload): (c: seq<Item>)
    ensures c != []
  {
    if p.samples != [] then p.samples else [Number(Observed(p))]
  }

  /** What a payload brings: the samples it lists; if it lists none, its value, 0 for one that is no number. */
  ghost predicate Brings(p: Payload, c: seq<Item>) {
    && (p.samples != [] ==> c == p.samples)
    && (p.samples == [] ==> c == [Number(if p.value.Number? then p.value.v else 0.0)])
  }

  lemma ContributionBrings(p: Payload)
    ensures Brings(p, Contribution(p))
  {
    assert LastNumber([]) == None;
  }

  lemma ContributionLength(p: Payload)
    ensures |Contribution(p)| == if p.samples == [] then 1 else |p.samples|
  {
  }

  // ---------------------------------------------------------------- one route

  datatype Buffer = Buffer(samples: seq<Item>, startTime: Time, endTime: Time, timestamp: Time)

  datatype RouteState = RouteState(last: Option<real>, buffer: Option<Buffer>)

  datatype Command =
    | Chunk(value: Item, samples: seq<Item>, startTime: Time, endTime: Time, timestamp: Time)
    | Scalar(number: real, timestamp: Time)
    | Whole(payload: Payload)

  datatype Delivery = Delivery(prefs: Prefs, payload: Payload, now: real)

  predicate Limited(f: Prefs) {
    f.minInterval > 0.0 && f.maxBuffer.None?
  }

  predicate Buffers(f: Prefs) {
    f.maxBuffer.Some? && f.maxBuffer.value > 0
  }

  function Filled(b: Option<Buffer>, p: Payload): Buffer {
    var held := b.GetOr(Buffer([], Either(p.startTime, p.timestamp), None, None));
    Buffer(held.samples + Contribution(p), held.startTime, Either(p.endTime, p.timestamp), p.timestamp)
  }

  function ChunkOf(b: Buffer, max: nat): Command
    requires 0 < max <= |b.samples|
  {
    Chunk(b.samples[max - 1], b.samples[..max], b.startTime, b.endTime, b.timestamp)
  }

  /** What one payload does to one route, and the command sent for it, if any. */
  function Step(r: RouteState, d: Delivery): (RouteState, Option<Command>) {
    var f, p := d.prefs, d.payload;
    if Limited(f) && d.now - r.last.GetOr(0.0) < f.minInterval then (r, None)
    else
      var last := if Limited(f) then Some(d.now) else r.last;
      if Buffers(f) then
        var b, max := Filled(r.buffer, p), f.maxBuffer.value;
        if |b.samples| < max then (RouteState(last, Some(b)), None)
        else
          var left := Buffer(b.samples[max..], b.endTime, b.endTime, b.timestamp);
          (RouteState(last, Some(left)), Some(ChunkOf(b, max)))
      else if f.scalarOnly || f.maxBuffer == Some(0) then
        (RouteState(last, r.buffer), Some(Scalar(Observed(p), p.timestamp)))
      else
        (RouteState(last, r.buffer), Some(Whole(p)))
  }

  datatype RouteEvent = Arrive(d: Delivery) | Reset

  datatype Sent = Sent(command: Command, at: real)

  const FRESH := RouteState(None, None)

  function After(r: RouteState, e: RouteEvent): RouteState {
    match e
    case Arrive(d) => Step(r, d).0
    case Reset => FRESH
  }

  function Emits(r: RouteState, e: RouteEvent): (out: seq<Sent>)
    ensures |out| <= 1
  {
    match e
    case Arrive(d) => var c := Step(r, d).1; if c.Some? then [Sent(c.value, d.now)] else []
    case Reset => []
  }

  function RunRoute(r: RouteState, es: seq<RouteEvent>): RouteState
    decreases |es|
  {
    if es == [] then r else RunRoute(After(r, es[0]), es[1..])
  }

  function Sends(r: RouteState, es: seq<RouteEvent>): seq<Sent>
    decreases |es|
  {
    if es == [] then [] else Emits(r, es[0]) + Sends(After(r, es[0]), es[1..])
  }

  // ---------------------------------------------------------------- re-chunking conserves samples

  function Backlog(r: RouteState): seq<Item> {
    if r.buffer.Some? then r.buffer.value.samples else []
  }

  ghost predicate BuffersAt(es: seq<RouteEvent>, max: nat) {
    max > 0 && forall e :: e in es ==> e.Arrive? && e.d.prefs.maxBuffer == Some(max)
  }

  function Contributed(es: seq<RouteEvent>): seq<Item>
    decreases |es|
  {
    if es == [] then []
    else (if es[0].Arrive? then Contribution(es[0].d.payload) else []) + Contributed(es[1..])
  }

  function Chunked(sent: seq<Sent>): seq<Item>
    decreases |sent|
  {
    if sent == [] then []
    else (if sent[0].command.Chunk? then sent[0].command.samples else []) + Chunked(sent[1..])
  }

  ghost predicate ExactChunks(sent: seq<Sent>, max: nat) {
    forall x :: x in sent ==>
      x.command.Chunk? && |x.command.samples| == max && max > 0 && x.command.value == x.command.samples[max - 1]
  }

  lemma {:induction false} ChunkedAppend(a: seq<Sent>, b: seq<Sent>)
    ensures Chunked(a + b) == Chunked(a) + Chunked(b)
    decreases |a|
  {
    if a == [] {
      assert a + b == b;
    } else {
      assert (a + b)[1..] == a[1..] + b;
      ChunkedAppend(a[1..], b);
    }
  }

  lemma BufferStep(r: RouteState, e: RouteEvent, max: nat)
    requires BuffersAt([e], max)
    ensures Chunked(Emits(r, e)) + Backlog(After(r, e)) == Backlog(r) + Contribution(e.d.payload)
    ensures ExactChunks(Emits(r, e), max)
    ensures |Emits(r, e)| == if |Backlog(r) + Contribution(e.d.payload)| < max then 0 else 1
  {
    assert e in [e] && e.d.prefs.maxBuffer == Some(max);
    hide Contribution, Chunked, Step, Backlog;
    FilledHolds(r, e.d.payload);
    if |Filled(r.buffer, e.d.payload).samples| < max {
      FillStep(r, e.d, max);
      ChunkedNone();
    } else {
      ChunkStep(r, e.d, max);
      ChunkedOne(Emits(r, e)[0]);
    }
  }

  lemma FilledHolds(r: RouteState, p: Payload)
    ensures Filled(r.buffer, p).samples == Backlog(r) + Contribution(p)
  {
    hide Contribution;
  }

  /** A payload that does not fill the buffer. */
  lemma FillStep(r: RouteState, d: Delivery, max: nat)
    requires d.prefs.maxBuffer == Some(max) && max > 0 && |Filled(r.buffer, d.payload).samples| < max
    ensures Step(r, d) == (RouteState(r.last, Some(Filled(r.buffer, d.payload))), None)
  {
    hide Contribution, Observed, Filled;
  }

  /** A payload that fills it: one chunk is cut off its front. */
  lemma ChunkStep(r: RouteState, d: Delivery, max: nat)
    requires d.prefs.maxBuffer == Some(max) && max > 0 && |Filled(r.buffer, d.payload).samples| >= max
    ensures var b, next := Filled(r.buffer, d.payload), Step(r, d);
            && next.1 == Some(ChunkOf(b, max))
            && next.1.value.samples + Backlog(next.0) == b.samples
            && next.0.buffer.Some? && next.0.buffer.value.startTime == b.endTime
  {
    hide Contribution, Observed, Filled;
    var b := Filled(r.buffer, d.payload);
    assert b.samples[..max] + b.samples[max..] == b.samples;
  }

  lemma ChunkedNone()
    ensures Chunked([]) == []
  {
  }

  lemma ChunkedOne(x: Sent)
    requires x.command.Chunk?
    ensures Chunked([x]) == x.command.samples
  {
    assert [x][1..] == [];
  }

  lemma BuffersTail(es: seq<RouteEvent>, max: nat)
    requires BuffersAt(es, max) && es != []
    ensures BuffersAt([es[0]], max) && BuffersAt(es[1..], max)
  {
  }

  lemma {:induction false} ChunksConserve(r: RouteState, es: seq<RouteEvent>, max: nat)
    requires BuffersAt(es, max)
    ensures Chunked(Sends(r, es)) + Backlog(RunRoute(r, es)) == Backlog(r) + Contributed(es)
    ensures ExactChunks(Sends(r, es), max)
    decreases |es|
  {
    if es == [] {
      assert Backlog(r) + [] == Backlog(r);
    } else {
      hide *;
      var r', rest := After(r, es[0]), es[1..];
      var sent, later := Emits(r, es[0]), Sends(After(r, es[0]), es[1..]);
      BuffersTail(es, max);
      IsArrival(es, max);
      BufferStep(r, es[0], max);
      ChunksConserve(r', rest, max);
      SendsCons(r, es);
      ChunkedAppend(sent, later);
      ContributedCons(es);
      AppendExact(sent, later, max);
      Regroup(Chunked(sent), Chunked(later), Backlog(r'), Backlog(RunRoute(r', rest)),
              Backlog(r), Contribution(es[0].d.payload), Contributed(rest));
    }
  }

  /** One list after the other. */
  function Flat(parts: seq<seq<Item>>): seq<Item> {
    if parts == [] then [] else parts[0] + Flat(parts[1..])
  }

  /** Part `i` is what event `i` brings. */
  ghost predicate PartsOf(es: seq<RouteEvent>, parts: seq<seq<Item>>) {
    |parts| == |es| && forall i :: 0 <= i < |es| ==> es[i].Arrive? && Brings(es[i].d.payload, parts[i])
  }

  lemma {:induction false} ContributedIsFlat(es: seq<RouteEvent>, parts: seq<seq<Item>>)
    requires PartsOf(es, parts)
    ensures Contributed(es) == Flat(parts)
    decreases |es|
  {
    if es == [] {
    } else {
      ContributionBrings(es[0].d.payload);
      ContributedIsFlat(es[1..], parts[1..]);
      hide Contribution;
      ContributedCons(es);
    }
  }

  /**
   On every run of one route, the chunks sent followed by the buffer are exactly the samples
   held before and those the payloads bring, in order; every chunk has exactly `max` of them.
   */
  lemma ChunksConserveSamples(r: RouteState, es: seq<RouteEvent>, max: nat, parts: seq<seq<Item>>)
    requires BuffersAt(es, max) && PartsOf(es, parts)
    ensures Chunked(Sends(r, es)) + Backlog(RunRoute(r, es)) == Backlog(r) + Flat(parts)
    ensures ExactChunks(Sends(r, es), max)
  {
    hide *;
    ChunksConserve(r, es, max);
    ContributedIsFlat(es, parts);
  }

  /** The lists of the payloads themselves. */
  ghost function Lists(es: seq<RouteEvent>): seq<seq<Item>>
    requires forall e :: e in es ==> e.Arrive?
  {
    seq(|es|, i requires 0 <= i < |es| => es[i].d.payload.samples)
  }

  /** Where every payload lists samples, these are the lists themselves, one after the other. */
  lemma ListsAreConserved(r: RouteState, es: seq<RouteEvent>, max: nat)
    requires BuffersAt(es, max) && forall e :: e in es ==> e.Arrive? && e.d.payload.samples != []
    ensures Chunked(Sends(r, es)) + Backlog(RunRoute(r, es)) == Backlog(r) + Flat(Lists(es))
  {
    hide Sends, RunRoute, Backlog, Chunked, Flat, BuffersAt;
    ChunksConserveSamples(r, es, max, Lists(es));
  }

  lemma ContributedCons(es: seq<RouteEvent>)
    requires es != [] && es[0].Arrive?
    ensures Contributed(es) == Contribution(es[0].d.payload) + Contributed(es[1..])
  {
  }

  lemma SendsCons(r: RouteState, es: seq<RouteEvent>)
    requires es != []
    ensures Sends(r, es) == Emits(r, es[0]) + Sends(After(r, es[0]), es[1..])
    ensures RunRoute(r, es) == RunRoute(After(r, es[0]), es[1..])
  {
  }

  lemma AppendExact(a: seq<Sent>, b: seq<Sent>, max: nat)
    requires ExactChunks(a, max) && ExactChunks(b, max)
    ensures ExactChunks(a + b, max)
  {
  }

  lemma Regroup<T>(out: seq<T>, later: seq<T>, held: seq<T>, left: seq<T>, before: seq<T>, here: seq<T>, rest: seq<T>)
    requires out + held == before + here && later + left == held + rest
    ensures (out + later) + left == before + (here + rest)
  {
    calc {
      (out + later) + left;
      out + (later + left);
      out + (held + rest);
      (out + held) + rest;
      (before + here) + rest;
      before + (here + rest);
    }
  }

  lemma IsArrival(es: seq<RouteEvent>, max: nat)
    requires BuffersAt(es, max) && es != []
    ensures es[0].Arrive?
  {
  }

  ghost predicate Modest(es: seq<RouteEvent>, max: nat) {
    forall e :: e in es && e.Arrive? ==> |e.d.payload.samples| <= max
  }

  /** Payloads no larger than the chunk size never leave a full chunk behind. */
  lemma {:induction false} BacklogBelowMax(r: RouteState, es: seq<RouteEvent>, max: nat)
    requires BuffersAt(es, max) && Modest(es, max) && |Backlog(r)| < max
    ensures |Backlog(RunRoute(r, es))| < max
    decreases |es|
  {
    hide After, Emits, Backlog, Contribution;
    if es == [] {
    } else {
      BufferStep(r, es[0], max);
      ContributionLength(es[0].d.payload);
      ChunkedLength(Emits(r, es[0]), max);
      assert es[0] in es;
      BacklogBelowMax(After(r, es[0]), es[1..], max);
    }
  }

  lemma {:induction false} ChunkedLength(sent: seq<Sent>, max: nat)
    requires ExactChunks(sent, max)
    ensures |Chunked(sent)| == |sent| * max
    decreases |sent|
  {
    if sent == [] {
    } else {
      ChunkedLength(sent[1..], max);
      assert sent[0] in sent;
      Distribute(|sent| - 1, max);
    }
  }

  lemma Distribute(n: int, k: int)
    ensures (n + 1) * k == n * k + k
  {
  }

  lemma DivisionIs(total: nat, count: nat, left: nat, max: nat)
    requires total == count * max + left && left < max
    ensures total / max == count && total % max == left
  {
    var q, rest := total / max, total % max;
    assert total == q * max + rest;
    if q < count {
      Scale(q + 1, count, max);
      Distribute(q, max);
    } else if q > count {
      Scale(count + 1, q, max);
      Distribute(count, max);
    }
  }

  lemma Scale(a: int, b: int, k: nat)
    requires a <= b
    ensures a * k <= b * k
  {
  }

  /** So the number of chunks and the backlog are the quotient and remainder of what arrived. */
  lemma ChunkCount(r: RouteState, es: seq<RouteEvent>, max: nat)
    requires BuffersAt(es, max) && Modest(es, max) && |Backlog(r)| < max
    ensures var total := |Backlog(r)| + |Contributed(es)|;
            |Sends(r, es)| == total / max && |Backlog(RunRoute(r, es))| == total % max
  {
    hide Backlog, Modest, BuffersAt, Sends, Contributed;
    assert max > 0;
    ChunksConserve(r, es, max);
    ChunkedLength(Sends(r, es), max);
    BacklogBelowMax(r, es, max);
    assert |Chunked(Sends(r, es)) + Backlog(RunRoute(r, es))| == |Backlog(r) + Contributed(es)|;
    DivisionIs(|Backlog(r)| + |Contributed(es)|, |Sends(r, es)|, |Backlog(RunRoute(r, es))|, max);
  }

  /** Chunks that the samples of a run complete. */
  function Due(r: RouteState, es: seq<RouteEvent>, max: nat): nat
    requires max > 0
  {
    (|Backlog(r)| + |Contributed(es)|) / max
  }

  /** None of the last payloads complete more chunks than they are. */
  ghost predicate KeepsUp(r: RouteState, es: seq<RouteEvent>, max: nat)
    requires max > 0
  {
    forall j :: 0 <= j <= |es| ==> Due(r, es, max) - Due(r, es[..j], max) <= |es| - j
  }

  lemma {:induction false} RunSnoc(r: RouteState, es: seq<RouteEvent>, e: RouteEvent)
    ensures RunRoute(r, es + [e]) == After(RunRoute(r, es), e)
    ensures Sends(r, es + [e]) == Sends(r, es) + Emits(RunRoute(r, es), e)
    ensures e.Arrive? ==> Contributed(es + [e]) == Contributed(es) + Contribution(e.d.payload)
    decreases |es|
  {
    hide After, Emits, Contribution;
    if es == [] {
      assert es + [e] == [e] && [e][1..] == [];
    } else {
      var rest := es[1..];
      assert (es + [e])[1..] == rest + [e];
      RunSnoc(After(r, es[0]), rest, e);
    }
  }

  /** Chunks sent plus what is left are the samples that came, counted. */
  lemma SamplesCounted(r: RouteState, es: seq<RouteEvent>, max: nat)
    requires BuffersAt(es, max)
    ensures |Sends(r, es)| * max + |Backlog(RunRoute(r, es))| == |Backlog(r)| + |Contributed(es)|
  {
    hide Backlog, BuffersAt, Sends, Contributed, RunRoute;
    ChunksConserve(r, es, max);
    ChunkedLength(Sends(r, es), max);
    assert |Chunked(Sends(r, es)) + Backlog(RunRoute(r, es))| == |Backlog(r) + Contributed(es)|;
  }

  lemma AtMostDue(total: nat, sent: nat, left: nat, max: nat)
    requires max > 0 && total == sent * max + left
    ensures sent <= total / max
    ensures sent == total / max <==> left < max
  {
    var q, rest := total / max, total % max;
    assert total == q * max + rest;
    if left < max {
      DivisionIs(total, sent, left, max);
    }
    if q < sent {
      Scale(q + 1, sent, max);
      Distribute(q, max);
    }
  }

  /** A chunk is sent with every payload that finds one due, and only then. */
  lemma OneMoreChunk(r: RouteState, es: seq<RouteEvent>, e: RouteEvent, max: nat)
    requires BuffersAt(es + [e], max)
    ensures max > 0 && |Sends(r, es + [e])| == |Sends(r, es)| + if |Sends(r, es)| < Due(r, es + [e], max) then 1 else 0
  {
    assert es + [e] != [] && (es + [e])[..|es|] == es && (es + [e])[|es|] == e;
    assert BuffersAt(es, max) && BuffersAt([e], max) && e.Arrive? && max > 0 by {
      AllButLast(es + [e], max);
      OnlyLast(es, e, max);
    }
    hide *;
    RunSnoc(r, es, e);
    BufferStep(RunRoute(r, es), e, max);
    DueBefore(r, es, e, max);
  }

  /** The chunks sent so far against those due with one more payload. */
  lemma DueBefore(r: RouteState, es: seq<RouteEvent>, e: RouteEvent, max: nat)
    requires BuffersAt(es, max) && max > 0 && e.Arrive?
    ensures |Sends(r, es)| <= Due(r, es + [e], max)
    ensures |Sends(r, es)| == Due(r, es + [e], max) <==>
              |Backlog(RunRoute(r, es)) + Contribution(e.d.payload)| < max
  {
    hide *;
    RunSnoc(r, es, e);
    SamplesCounted(r, es, max);
    DueOf(r, es + [e], max);
    var here := |Contribution(e.d.payload)|;
    AtMostDue(|Backlog(r)| + |Contributed(es)| + here, |Sends(r, es)|, |Backlog(RunRoute(r, es))| + here, max);
  }

  lemma OnlyLast(es: seq<RouteEvent>, e: RouteEvent, max: nat)
    requires BuffersAt(es + [e], max)
    ensures BuffersAt([e], max) && max > 0
  {
    assert e in es + [e];
  }

  lemma DueOf(r: RouteState, es: seq<RouteEvent>, max: nat)
    requires max > 0
    ensures Due(r, es, max) == (|Backlog(r)| + |Contributed(es)|) / max
  {
  }

  lemma DueGrows(r: RouteState, es: seq<RouteEvent>, e: RouteEvent, max: nat)
    requires max > 0 && e.Arrive?
    ensures Due(r, es, max) <= Due(r, es + [e], max)
  {
    hide Backlog, Contribution, Contributed, RunRoute, Sends;
    RunSnoc(r, es, e);
    var a, b := |Backlog(r)| + |Contributed(es)|, |Backlog(r)| + |Contributed(es + [e])|;
    AtMostDue(b, a / max, b - a / max * max, max);
    assert a / max * max <= a;
  }

  /** The chunks sent fall behind the chunks due by the worst burst of payloads so far. */
  lemma {:induction false} ChunksAreQueued(r: RouteState, es: seq<RouteEvent>, max: nat) returns (j: nat)
    requires BuffersAt(es, max) && |Backlog(r)| < max
    ensures forall i :: 0 <= i <= |es| ==> |Sends(r, es)| <= Due(r, es[..i], max) + |es| - i
    ensures j <= |es| && |Sends(r, es)| == Due(r, es[..j], max) + |es| - j
    decreases |es|
  {
    hide BuffersAt, Backlog, Sends, Due;
    if es == [] {
      NothingDue(r, max);
      j := 0;
    } else {
      var before, e := es[..|es| - 1], es[|es| - 1];
      assert es == before + [e];
      assert BuffersAt(before, max) && e.Arrive? by { AllButLast(es, max); }
      j := ChunksAreQueued(r, before, max);
      OneMoreChunk(r, before, e, max);
      DueGrows(r, before, e, max);
      SentAtMostDue(r, before, max);
      assert es[..|es|] == es && before[..|before|] == before;
      assert forall i :: 0 <= i <= |before| ==> es[..i] == before[..i];
      if |Sends(r, before)| >= Due(r, es, max) {
        j := |es|;
      }
      assert |Sends(r, before)| <= Due(r, before[..|before|], max);
    }
  }

  lemma AllButLast(es: seq<RouteEvent>, max: nat)
    requires BuffersAt(es, max) && es != []
    ensures BuffersAt(es[..|es| - 1], max) && es[|es| - 1].Arrive?
  {
  }

  lemma NothingDue(r: RouteState, max: nat)
    requires |Backlog(r)| < max
    ensures Due(r, [], max) == 0 && Sends(r, []) == []
  {
  }

  lemma SentAtMostDue(r: RouteState, es: seq<RouteEvent>, max: nat)
    requires BuffersAt(es, max)
    ensures max > 0 && |Sends(r, es)| <= Due(r, es, max)
    ensures |Sends(r, es)| == Due(r, es, max) <==> |Backlog(RunRoute(r, es))| < max
  {
    PositiveChunk(es, max);
    hide BuffersAt, Backlog, Sends, RunRoute, Contributed;
    SamplesCounted(r, es, max);
    AtMostDue(|Backlog(r)| + |Contributed(es)|, |Sends(r, es)|, |Backlog(RunRoute(r, es))|, max);
  }

  /**
   One chunk is sent per payload at most. Whatever the sizes of the payloads, less than a
   chunk is left behind exactly when no burst of the last payloads completed more chunks
   than it had payloads.
   */
  lemma BacklogExactly(r: RouteState, es: seq<RouteEvent>, max: nat)
    requires BuffersAt(es, max) && |Backlog(r)| < max
    ensures |Backlog(RunRoute(r, es))| < max <==> KeepsUp(r, es, max)
  {
    hide Backlog, BuffersAt, RunRoute, Sends, Due;
    var j := ChunksAreQueued(r, es, max);
    SentAtMostDue(r, es, max);
    assert KeepsUp(r, es, max) ==> Due(r, es, max) - Due(r, es[..j], max) <= |es| - j;
  }

  ghost predicate EachBrings(es: seq<RouteEvent>, c: nat) {
    forall e :: e in es && e.Arrive? ==> c == if e.d.payload.samples == [] then 1 else |e.d.payload.samples|
  }

  lemma {:induction false} ContributedLength(es: seq<RouteEvent>, c: nat, max: nat)
    requires BuffersAt(es, max) && EachBrings(es, c)
    ensures |Contributed(es)| == |es| * c
    decreases |es|
  {
    hide Contribution;
    if es == [] {
    } else {
      ContributedLength(es[1..], c, max);
      ContributionLength(es[0].d.payload);
      assert es[0] in es;
      Distribute(|es| - 1, c);
    }
  }

  lemma {:induction false} BacklogGrows(r: RouteState, es: seq<RouteEvent>, c: nat, max: nat)
    requires BuffersAt(es, max) && EachBrings(es, c) && c >= max
    ensures |Backlog(RunRoute(r, es))| == |Backlog(r)| + |es| * (c - max)
    decreases |es|
  {
    hide After, Emits, Backlog, Contribution;
    if es == [] {
    } else {
      BufferStep(r, es[0], max);
      ContributionLength(es[0].d.payload);
      ChunkedLength(Emits(r, es[0]), max);
      assert es[0] in es;
      BacklogGrows(After(r, es[0]), es[1..], c, max);
      Distribute(|es| - 1, c - max);
    }
  }

  /**
   Payloads of one size: up to the chunk size the backlog is a remainder; beyond it the
   buffer gains `c - max` samples with every payload, without bound.
   */
  lemma EvenBacklog(es: seq<RouteEvent>, c: nat, max: nat)
    requires BuffersAt(es, max) && EachBrings(es, c)
    ensures |Backlog(RunRoute(FRESH, es))| == if c <= max then (|es| * c) % max else |es| * (c - max)
  {
    hide BuffersAt, EachBrings, Contribution;
    assert Backlog(FRESH) == [];
    if c <= max {
      assert Modest(es, max) by { EvenIsModest(es, c, max); }
      assert max > 0 by { PositiveChunk(es, max); }
      hide Modest;
      ContributedLength(es, c, max);
      ChunkCount(FRESH, es, max);
    } else {
      BacklogGrows(FRESH, es, c, max);
    }
  }

  lemma PositiveChunk(es: seq<RouteEvent>, max: nat)
    requires BuffersAt(es, max)
    ensures max > 0
  {
  }

  lemma EvenIsModest(es: seq<RouteEvent>, c: nat, max: nat)
    requires EachBrings(es, c) && c <= max
    ensures Modest(es, max)
  {
    hide Contribution;
  }

  // ---------------------------------------------------------------- times of chunks

  /** The chunks of a route join up in time: each starts where the one before it ended. */
  ghost predicate Contiguous(sent: seq<Sent>) {
    forall j :: 0 < j < |sent| ==> JoinsAt(sent, j)
  }

  predicate JoinsAt(sent: seq<Sent>, j: nat)
    requires 0 < j < |sent|
  {
    sent[j - 1].command.Chunk? && sent[j].command.Chunk? && sent[j].command.startTime == sent[j - 1].command.endTime
  }

  /** The start time the next chunk of a route will carry. */
  function NextStart(r: RouteState, p: Payload): Time {
    if r.buffer.Some? then r.buffer.value.startTime else Either(p.startTime, p.timestamp)
  }

  lemma {:induction false} ChunksJoin(r: RouteState, es: seq<RouteEvent>, max: nat)
    requires BuffersAt(es, max) && es != []
    ensures Contiguous(Sends(r, es))
    ensures Sends(r, es) != [] ==>
              Sends(r, es)[0].command.Chunk? && Sends(r, es)[0].command.startTime == NextStart(r, es[0].d.payload)
    decreases |es|
  {
    hide BuffersAt, Contribution;
    BuffersTail(es, max);
    IsArrival(es, max);
    var r', rest := After(r, es[0]), es[1..];
    JoinStep(r, es[0], max);
    hide After, Emits, NextStart, Sends;
    SendsCons(r, es);
    if rest == [] {
      SendsNone(r');
    } else {
      ChunksJoin(r', rest, max);
    }
    JoinSends(Emits(r, es[0]), Sends(r', rest));
  }

  lemma SendsNone(r: RouteState)
    ensures Sends(r, []) == []
  {
  }

  lemma JoinSends(first: seq<Sent>, rest: seq<Sent>)
    requires |first| <= 1 && Contiguous(rest)
    requires first != [] ==> first[0].command.Chunk?
    requires rest != [] ==> rest[0].command.Chunk?
    requires first != [] && rest != [] ==> rest[0].command.startTime == first[0].command.endTime
    ensures Contiguous(first + rest)
  {
    var all := first + rest;
    forall j | 0 < j < |all| ensures JoinsAt(all, j) {
      if j > |first| {
        assert JoinsAt(rest, j - |first|);
      }
    }
  }

  lemma JoinStep(r: RouteState, e: RouteEvent, max: nat)
    requires BuffersAt([e], max)
    ensures After(r, e).buffer.Some?
    ensures Emits(r, e) == [] ==> forall p :: NextStart(After(r, e), p) == NextStart(r, e.d.payload)
    ensures Emits(r, e) != [] ==>
              && Emits(r, e)[0].command.Chunk?
              && Emits(r, e)[0].command.startTime == NextStart(r, e.d.payload)
              && forall p :: NextStart(After(r, e), p) == Emits(r, e)[0].command.endTime
  {
    assert e in [e];
    hide Contribution;
  }

  // ---------------------------------------------------------------- rate limit

  ghost predicate LimitedBy(es: seq<RouteEvent>, interval: real) {
    && interval > 0.0
    && forall e :: e in es ==> e.Arrive? && e.d.prefs.minInterval == interval && e.d.prefs.maxBuffer.None?
  }

  function CountIn(sent: seq<Sent>, from: real, to: real): nat
    decreases |sent|
  {
    if sent == [] then 0 else (if from <= sent[0].at <= to then 1 else 0) + CountIn(sent[1..], from, to)
  }

  ghost predicate SpacedFrom(sent: seq<Sent>, earliest: real, interval: real)
    decreases |sent|
  {
    sent == [] || (sent[0].at >= earliest && SpacedFrom(sent[1..], sent[0].at + interval, interval))
  }

  function WholeTimes(span: real, interval: real): int
    requires interval > 0.0
  {
    (span / interval).Floor
  }

  lemma QuotientIs(q: real, n: real, d: real)
    requires d > 0.0 && q * d == n
    ensures n / d == q
  {
  }

  lemma WholeTimesStep(span: real, interval: real)
    requires interval > 0.0
    ensures WholeTimes(span - interval, interval) == WholeTimes(span, interval) - 1
    ensures span >= 0.0 ==> WholeTimes(span, interval) >= 0
  {
    var q := span / interval;
    assert (q - 1.0) * interval == span - interval;
    QuotientIs(q - 1.0, span - interval, interval);
    if span >= 0.0 {
      assert span / interval >= 0.0;
    }
  }

  lemma WholeTimesGrow(a: real, b: real, interval: real)
    requires interval > 0.0 && a <= b
    ensures WholeTimes(a, interval) <= WholeTimes(b, interval)
  {
    assert a / interval <= b / interval;
  }

  lemma {:induction false} SpacedCount(sent: seq<Sent>, earliest: real, interval: real, from: real, to: real)
    requires interval > 0.0 && SpacedFrom(sent, earliest, interval) && from <= to
    ensures var start := if earliest > from then earliest else from;
            CountIn(sent, from, to) <= if start <= to then WholeTimes(to - start, interval) + 1 else 0
    decreases |sent|
  {
    hide WholeTimes;
    var start := if earliest > from then earliest else from;
    if start <= to {
      WholeTimesStep(to - start, interval);
    }
    if sent == [] {
    } else {
      var at := sent[0].at;
      SpacedCount(sent[1..], at + interval, interval, from, to);
      var next := if at + interval > from then at + interval else from;
      if at >= from {
        WholeTimesStep(to - at, interval);
        if start <= to {
          WholeTimesGrow(to - at, to - start, interval);
        }
      } else if next <= to {
        WholeTimesGrow(to - next, to - start, interval);
      }
    }
  }

  lemma {:induction false} SendsAreSpaced(r: RouteState, es: seq<RouteEvent>, interval: real)
    requires LimitedBy(es, interval)
    ensures SpacedFrom(Sends(r, es), r.last.GetOr(0.0) + interval, interval)
    decreases |es|
  {
    if es == [] {
    } else {
      assert es[0] in es;
      hide Contribution, Observed;
      SendsAreSpaced(After(r, es[0]), es[1..], interval);
      var rest := Sends(After(r, es[0]), es[1..]);
      if Emits(r, es[0]) == [] {
        assert Sends(r, es) == rest;
      } else {
        assert Sends(r, es)[1..] == rest;
      }
    }
  }

  /**
   While the configuration stands and the route is not reset, a span of time of length
   `to - from` holds at most floor((to - from) / interval) + 1 forwards. No property of the
   clock is needed.
   */
  lemma RateLimit(r: RouteState, es: seq<RouteEvent>, interval: real, from: real, to: real)
    requires LimitedBy(es, interval) && from <= to
    ensures CountIn(Sends(r, es), from, to) <= WholeTimes(to - from, interval) + 1
  {
    hide WholeTimes, SpacedFrom, CountIn, Sends;
    var earliest := r.last.GetOr(0.0) + interval;
    SendsAreSpaced(r, es, interval);
    SpacedCount(Sends(r, es), earliest, interval, from, to);
    WholeTimesStep(to - from, interval);
    if from < earliest <= to {
      WholeTimesGrow(to - earliest, to - from, interval);
    }
  }

  /** When the route last sent a command; time zero of the clock if it never has. */
  function LastSentAt(r: RouteState, es: seq<RouteEvent>): real {
    var sent := Sends(r, es);
    if sent == [] then r.last.GetOr(0.0) else sent[|sent| - 1].at
  }

  lemma {:induction false} StoredTimeIsLastSent(r: RouteState, es: seq<RouteEvent>, interval: real)
    requires LimitedBy(es, interval)
    ensures RunRoute(r, es).last.GetOr(0.0) == LastSentAt(r, es)
    decreases |es|
  {
    if es == [] {
    } else {
      assert es[0] in es;
      hide Contribution, Observed;
      StoredTimeIsLastSent(After(r, es[0]), es[1..], interval);
    }
  }

  /** A payload on a limited route is held back exactly when the route sent something less than an interval ago. */
  lemma HeldBackExactly(r: RouteState, es: seq<RouteEvent>, d: Delivery, interval: real)
    requires LimitedBy(es + [Arrive(d)], interval)
    ensures Emits(RunRoute(r, es), Arrive(d)) == [] <==> d.now - LastSentAt(r, es) < interval
  {
    assert Arrive(d) in es + [Arrive(d)];
    assert forall e :: e in es ==> e in es + [Arrive(d)];
    StoredTimeIsLastSent(r, es, interval);
    hide Sends, RunRoute, LastSentAt;
  }

  /** The same in the terms of the actuator's configuration: at most floor(seconds * Hz) + 1 forwards. */
  lemma ConfiguredRate(c: Config, r: RouteState, es: seq<RouteEvent>, from: real, to: real)
    requires c.maxBufferSize.None? && EitherRate(c.sampleRate, c.maxRateHz).Hz? &&
             EitherRate(c.sampleRate, c.maxRateHz).hz > 0.0
    requires forall e :: e in es ==> e.Arrive? && e.d.prefs == DeliveryPrefs(c)
    requires from <= to
    ensures CountIn(Sends(r, es), from, to) <= ((to - from) * EitherRate(c.sampleRate, c.maxRateHz).hz).Floor + 1
  {
    hide Sends, CountIn;
    var hz := EitherRate(c.sampleRate, c.maxRateHz).hz;
    Reciprocal(to - from, hz);
    assert LimitedBy(es, 1.0 / hz);
    RateLimit(r, es, 1.0 / hz, from, to);
  }

  lemma Reciprocal(span: real, hz: real)
    requires hz > 0.0
    ensures 1.0 / hz > 0.0
    ensures span / (1.0 / hz) == span * hz
  {
    var i := 1.0 / hz;
    assert i * hz == 1.0;
    assert i > 0.0;
    assert (span * hz) * i == span * (hz * i) == span;
  }

  // ---------------------------------------------------------------- all routes

  type Route = (string, string)

  datatype Table = Table(last: map<Route, real>, buffers: map<Route, Buffer>)

  function At<V>(m: map<Route, V>, key: Route): Option<V> {
    if key in m then Some(m[key]) else None
  }

  function Put<V>(m: map<Route, V>, key: Route, v: Option<V>): map<Route, V> {
    if v.Some? then m[key := v.value] else m - {key}
  }

  function View(t: Table, key: Route): RouteState {
    RouteState(At(t.last, key), At(t.buffers, key))
  }

  predicate Touches(key: Route, gone: set<string>) {
    key.0 in gone || key.1 in gone
  }

  datatype Event = Deliver(key: Route, d: Delivery) | Forget(gone: set<string>)

  function DeliverOn(t: Table, key: Route, d: Delivery): Table {
    var r := Step(View(t, key), d).0;
    Table(Put(t.last, key, r.last), Put(t.buffers, key, r.buffer))
  }

  /** `_drop_actuator_routes_for`. */
  function DropRoutes(t: Table, gone: set<string>): Table {
    Table(map k | k in t.last && !Touches(k, gone) :: t.last[k],
          map k | k in t.buffers && !Touches(k, gone) :: t.buffers[k])
  }

  function Next(t: Table, e: Event): Table {
    match e
    case Deliver(key, d) => DeliverOn(t, key, d)
    case Forget(gone) => DropRoutes(t, gone)
  }

  function Run(t: Table, events: seq<Event>): Table
    decreases |events|
  {
    if events == [] then t else Run(Next(t, events[0]), events[1..])
  }

  function SentNow(t: Table, e: Event, key: Route): seq<Sent> {
    if e.Deliver? && e.key == key then Emits(View(t, key), Arrive(e.d)) else []
  }

  /** Commands sent on one route over a run of the whole table. */
  function SentOn(t: Table, events: seq<Event>, key: Route): seq<Sent>
    decreases |events|
  {
    if events == [] then [] else SentNow(t, events[0], key) + SentOn(Next(t, events[0]), events[1..], key)
  }

  /** What an event is to one route: at most one event of its own. */
  function Mine(e: Event, key: Route): (es: seq<RouteEvent>)
    ensures |es| <= 1
  {
    match e
    case Deliver(k, d) => if k == key then [Arrive(d)] else []
    case Forget(gone) => if Touches(key, gone) then [Reset] else []
  }

  /** The events that concern one route. */
  function Concerning(events: seq<Event>, key: Route): seq<RouteEvent>
    decreases |events|
  {
    if events == [] then [] else Mine(events[0], key) + Concerning(events[1..], key)
  }

  lemma OwnRun(r: RouteState, first: seq<RouteEvent>, rest: seq<RouteEvent>)
    requires |first| <= 1
    ensures RunRoute(r, first + rest) == RunRoute(RunRoute(r, first), rest)
    ensures Sends(r, first + rest) == Sends(r, first) + Sends(RunRoute(r, first), rest)
  {
    hide After, Emits;
    if first == [] {
      assert first + rest == rest;
    } else {
      assert first[1..] == [];
      assert (first + rest)[1..] == rest;
    }
  }

  lemma OwnStep(t: Table, e: Event, key: Route)
    ensures View(Next(t, e), key) == RunRoute(View(t, key), Mine(e, key))
    ensures SentNow(t, e, key) == Sends(View(t, key), Mine(e, key))
  {
    NextView(t, e, key);
    hide View, After, Emits, Next, Touches;
    assert forall x: RouteEvent :: [x][1..] == [];
    assert Emits(View(t, key), Reset) == [] by { ResetSilent(View(t, key)); }
  }

  lemma ResetSilent(r: RouteState)
    ensures Emits(r, Reset) == []
  {
  }

  lemma NextView(t: Table, e: Event, key: Route)
    ensures View(Next(t, e), key) ==
            match e
            case Deliver(k, d) => if k == key then After(View(t, key), Arrive(d)) else View(t, key)
            case Forget(gone) => if Touches(key, gone) then After(View(t, key), Reset) else View(t, key)
  {
    hide Step;
  }

  /**
   A route is driven by its own events alone: whatever happens on other routes in between,
   its state and the commands sent on it are those of a run of that route by itself.
   */
  lemma {:induction false} RoutesIndependent(t: Table, events: seq<Event>, key: Route)
    ensures View(Run(t, events), key) == RunRoute(View(t, key), Concerning(events, key))
    ensures SentOn(t, events, key) == Sends(View(t, key), Concerning(events, key))
    decreases |events|
  {
    if events == [] {
    } else {
      hide Next, View, SentNow, Mine, RunRoute, Sends;
      var t', rest := Next(t, events[0]), events[1..];
      OwnStep(t, events[0], key);
      RoutesIndependent(t', rest, key);
      OwnRun(View(t, key), Mine(events[0], key), Concerning(rest, key));
    }
  }

  // ---------------------------------------------------------------- the routing tables

  /** A linked actuator, the session that owns it if it is connected, and its configuration. */
  datatype Target = Target(actuator: string, sid: Option<string>, config: Config)

  datatype Emission = Emission(sid: string, actuator: string, command: Command)

  function ToTarget(x: Target, p: Payload, now: real): Delivery {
    Delivery(DeliveryPrefs(x.config), p, now)
  }

  /** The deliveries one payload makes. */
  function Deliveries(source: string, targets: seq<Target>, p: Payload, now: real): seq<Event> {
    if targets == [] then []
    else
      var x := targets[|targets| - 1];
      Deliveries(source, targets[..|targets| - 1], p, now)
      + if x.sid.Some? then [Deliver((source, x.actuator), ToTarget(x, p, now))] else []
  }

  /** The commands they send: each depends on its own route as it was before the payload. */
  function Emissions(t: Table, source: string, targets: seq<Target>, p: Payload, now: real): seq<Emission> {
    if targets == [] then []
    else
      var x := targets[|targets| - 1];
      Emissions(t, source, targets[..|targets| - 1], p, now)
      + if x.sid.None? then []
        else
          var c := Step(View(t, (source, x.actuator)), ToTarget(x, p, now)).1;
          if c.Some? then [Emission(x.sid.value, x.actuator, c.value)] else []
  }

  lemma {:induction false} RunAppend(t: Table, a: seq<Event>, e: Event)
    ensures Run(t, a + [e]) == Next(Run(t, a), e)
    decreases |a|
  {
    if a == [] {
      assert a + [e] == [e];
    } else {
      assert (a + [e])[1..] == a[1..] + [e];
      RunAppend(Next(t, a[0]), a[1..], e);
    }
  }

  /** The command goes to the session of the target it names. */
  ghost predicate Addressed(targets: seq<Target>, e: Emission) {
    exists i :: 0 <= i < |targets| && targets[i].actuator == e.actuator && targets[i].sid == Some(e.sid)
  }

  /** The target is sent the command its own route yields for the payload, or nothing if it yields none. */
  ghost predicate Served(t: Table, source: string, x: Target, p: Payload, now: real, emitted: seq<Emission>) {
    x.sid.Some? &&
    match Step(View(t, (source, x.actuator)), ToTarget(x, p, now)).1
    case Some(c) => Emission(x.sid.value, x.actuator, c) in emitted
    case None => forall e :: e in emitted ==> e.actuator != x.actuator
  }

  /** And its route has taken the payload's step. */
  ghost predicate Moved(t: Table, t': Table, source: string, x: Target, p: Payload, now: real) {
    var key := (source, x.actuator);
    View(t', key) == Step(View(t, key), ToTarget(x, p, now)).0
  }

  /** One of the targets, and connected. */
  ghost predicate Aims(targets: seq<Target>, actuator: string) {
    exists i :: 0 <= i < |targets| && targets[i].actuator == actuator && targets[i].sid.Some?
  }

  ghost predicate Apart(targets: seq<Target>) {
    forall i, j :: 0 <= i < j < |targets| ==> targets[i].actuator != targets[j].actuator
  }

  lemma AddressedSnoc(targets: seq<Target>, x: Target, e: Emission)
    ensures Addressed(targets, e) ==> Addressed(targets + [x], e)
    ensures x.actuator == e.actuator && x.sid == Some(e.sid) ==> Addressed(targets + [x], e)
    ensures Addressed(targets, e) && Apart(targets + [x]) ==> e.actuator != x.actuator
  {
    assert (targets + [x])[|targets|] == x;
    assert forall i :: 0 <= i < |targets| ==> (targets + [x])[i] == targets[i];
  }

  lemma AimsSnoc(targets: seq<Target>, x: Target, actuator: string)
    ensures Aims(targets + [x], actuator) <==> Aims(targets, actuator) || (x.actuator == actuator && x.sid.Some?)
    ensures Aims(targets, actuator) && Apart(targets + [x]) ==> actuator != x.actuator
  {
    assert (targets + [x])[|targets|] == x;
    assert forall i :: 0 <= i < |targets| ==> (targets + [x])[i] == targets[i];
  }

  lemma EmissionsSnoc(t: Table, source: string, targets: seq<Target>, x: Target, p: Payload, now: real)
    ensures var c := Step(View(t, (source, x.actuator)), ToTarget(x, p, now)).1;
            Emissions(t, source, targets + [x], p, now) == Emissions(t, source, targets, p, now)
              + if x.sid.Some? && c.Some? then [Emission(x.sid.value, x.actuator, c.value)] else []
    ensures Deliveries(source, targets + [x], p, now) == Deliveries(source, targets, p, now)
              + if x.sid.Some? then [Deliver((source, x.actuator), ToTarget(x, p, now))] else []
  {
    hide Step;
    assert (targets + [x])[..|targets|] == targets;
  }

  lemma {:induction false} EmissionsAddressed(t: Table, source: string, targets: seq<Target>, p: Payload, now: real)
    ensures forall e :: e in Emissions(t, source, targets, p, now) ==> Addressed(targets, e)
    decreases |targets|
  {
    if targets == [] {
    } else {
      hide Step, Addressed, Emissions, Deliveries;
      var before, x := targets[..|targets| - 1], targets[|targets| - 1];
      assert targets == before + [x];
      EmissionsAddressed(t, source, before, p, now);
      EmissionsSnoc(t, source, before, x, p, now);
      forall e | e in Emissions(t, source, targets, p, now) ensures Addressed(targets, e) {
        AddressedSnoc(before, x, e);
      }
    }
  }

  lemma {:induction false} EmissionsServe(t: Table, source: string, targets: seq<Target>, p: Payload, now: real)
    requires Apart(targets)
    ensures forall x :: x in targets && x.sid.Some? ==>
              Served(t, source, x, p, now, Emissions(t, source, targets, p, now))
    decreases |targets|
  {
    if targets == [] {
    } else {
      hide Step, Addressed, Emissions, Deliveries;
      var before, x := targets[..|targets| - 1], targets[|targets| - 1];
      assert targets == before + [x];
      EmissionsServe(t, source, before, p, now);
      EmissionsSnoc(t, source, before, x, p, now);
      EmissionsAddressed(t, source, before, p, now);
      forall e | e in Emissions(t, source, before, p, now) ensures e.actuator != x.actuator {
        AddressedSnoc(before, x, e);
      }
      assert forall y :: y in before ==> y.actuator != x.actuator;
    }
  }

  lemma {:induction false} DeliveriesMove(t: Table, source: string, targets: seq<Target>, p: Payload, now: real)
    requires Apart(targets)
    ensures var t' := Run(t, Deliveries(source, targets, p, now));
            && (forall x :: x in targets && x.sid.Some? ==> Moved(t, t', source, x, p, now))
            && (forall k: Route :: k.0 != source || !Aims(targets, k.1) ==> View(t', k) == View(t, k))
    decreases |targets|
  {
    if targets == [] {
      assert Run(t, []) == t;
    } else {
      hide Step, Aims, View, Emissions, Deliveries, Run, Next;
      var before, x := targets[..|targets| - 1], targets[|targets| - 1];
      assert targets == before + [x];
      assert Apart(before);
      DeliveriesMove(t, source, before, p, now);
      EmissionsSnoc(t, source, before, x, p, now);
      var mid, e := Run(t, Deliveries(source, before, p, now)), Deliver((source, x.actuator), ToTarget(x, p, now));
      if x.sid.Some? {
        RunAppend(t, Deliveries(source, before, p, now), e);
      } else {
        assert Deliveries(source, targets, p, now) == Deliveries(source, before, p, now);
      }
      var t' := Run(t, Deliveries(source, targets, p, now));
      forall k: Route ensures View(t', k) ==
          if x.sid.Some? && k == (source, x.actuator) then Step(View(mid, k), ToTarget(x, p, now)).0 else View(mid, k)
      {
        NextView(mid, e, k);
      }
      forall k: Route ensures Aims(targets, k.1) <==> Aims(before, k.1) || (x.actuator == k.1 && x.sid.Some?) {
        AimsSnoc(before, x, k.1);
      }
      AimsSnoc(before, x, x.actuator);
      assert forall y :: y in before ==> y.actuator != x.actuator;
    }
  }

  /** What one round over the targets does, target by target. */
  lemma RoundHolds(t: Table, source: string, targets: seq<Target>, p: Payload, now: real)
    requires Apart(targets)
    ensures var t', emitted := Run(t, Deliveries(source, targets, p, now)), Emissions(t, source, targets, p, now);
            && (forall e :: e in emitted ==> Addressed(targets, e))
            && (forall x :: x in targets && x.sid.Some? ==> Served(t, source, x, p, now, emitted))
            && (forall x :: x in targets && x.sid.Some? ==> Moved(t, t', source, x, p, now))
            && (forall k: Route :: k.0 != source || !Aims(targets, k.1) ==> View(t', k) == View(t, k))
  {
    hide *;
    EmissionsAddressed(t, source, targets, p, now);
    EmissionsServe(t, source, targets, p, now);
    DeliveriesMove(t, source, targets, p, now);
  }

  method Incoming(p: Payload) returns (incoming: seq<Item>)
    ensures Brings(p, incoming) && incoming == Contribution(p)
  {
    ContributionBrings(p);
    incoming := p.samples;
    if incoming == [] {
      var val := PickObservedValue(p);
      incoming := [Number(val)];
    }
  }

  /** What is held with what comes in: kept while short of `max`, else one chunk off the front and the rest. */
  ghost predicate Rechunked(all: seq<Item>, max: nat, command: Option<Command>, left: seq<Item>)
    requires max > 0
  {
    if |all| < max then command == None && left == all
    else
      && command.Some? && command.value.Chunk?
      && command.value.samples == all[..max] && command.value.value == all[max - 1] && left == all[max..]
  }

  /** `a` if it is there and not zero, else `b`. */
  ghost predicate IsEither(t: Time, a: Time, b: Time) {
    (a.GetOr(0.0) != 0.0 && t == a) || (a.GetOr(0.0) == 0.0 && t == b)
  }

  /** One number for the payload, at its timestamp. */
  ghost predicate IsScalar(command: Option<Command>, p: Payload) {
    command.Some? && command.value.Scalar? && Picked(p, command.value.number) && command.value.timestamp == p.timestamp
  }

  /** The samples a route holds. */
  ghost function Held(buffers: map<Route, Buffer>, key: Route): seq<Item> {
    if key in buffers then buffers[key].samples else []
  }

  class ActuatorRouter {
    var routeTs: map<Route, real>
    var routeBuffers: map<Route, Buffer>

    ghost function Abs(): Table
      reads this
    {
      Table(routeTs, routeBuffers)
    }

    constructor ()
      ensures Abs() == Table(map[], map[])
    {
      routeTs, routeBuffers := map[], map[];
    }

    method DropActuatorRoutesFor(ids: set<string>)
      modifies this
      ensures Abs() == DropRoutes(old(Abs()), ids)
      ensures forall k :: k in routeTs <==> k in old(routeTs) && k.0 !in ids && k.1 !in ids
      ensures forall k :: k in routeBuffers <==> k in old(routeBuffers) && k.0 !in ids && k.1 !in ids
      ensures forall k :: k in routeTs ==> routeTs[k] == old(routeTs)[k]
      ensures forall k :: k in routeBuffers ==> routeBuffers[k] == old(routeBuffers)[k]
    {
      if ids == {} {
        return;
      }
      routeTs := map k | k in routeTs && !Touches(k, ids) :: routeTs[k];
      routeBuffers := map k | k in routeBuffers && !Touches(k, ids) :: routeBuffers[k];
    }

    /** Append to the route's buffer and cut off a chunk if it is full. */
    method Repackage(key: Route, p: Payload, max: nat) returns (command: Option<Command>)
      requires max > 0
      modifies this`routeBuffers
      ensures var b := Filled(At(old(routeBuffers), key), p);
              && command == (if |b.samples| < max then None else Some(ChunkOf(b, max)))
              && routeBuffers == old(routeBuffers)[key :=
                   if |b.samples| < max then b else Buffer(b.samples[max..], b.endTime, b.endTime, b.timestamp)]
      ensures key in routeBuffers
      ensures p.samples != [] ==>
                Rechunked(Held(old(routeBuffers), key) + p.samples, max, command, routeBuffers[key].samples)
      ensures p.samples == [] ==>
                Rechunked(Held(old(routeBuffers), key) + [Number(if p.value.Number? then p.value.v else 0.0)], max,
                          command, routeBuffers[key].samples)
      ensures IsEither(routeBuffers[key].endTime, p.endTime, p.timestamp) && routeBuffers[key].timestamp == p.timestamp
      ensures command.Some? ==>
        && command.value.endTime == routeBuffers[key].endTime == routeBuffers[key].startTime
        && command.value.timestamp == p.timestamp
      ensures var start := if command.Some? then command.value.startTime else routeBuffers[key].startTime;
              if key in old(routeBuffers) then start == old(routeBuffers)[key].startTime
              else IsEither(start, p.startTime, p.timestamp)
      ensures forall k :: k != key ==> At(routeBuffers, k) == At(old(routeBuffers), k)
    {
      if key !in routeBuffers {
        routeBuffers := routeBuffers[key := Buffer([], Either(p.startTime, p.timestamp), None, None)];
      }
      var buf := routeBuffers[key];
      var incoming := Incoming(p);
      hide Contribution;
      buf := Buffer(buf.samples + incoming, buf.startTime, Either(p.endTime, p.timestamp), p.timestamp);
      routeBuffers := routeBuffers[key := buf];
      if |buf.samples| < max {
        return None;
      }
      var chunk := buf.samples[..max];
      command := Some(Chunk(chunk[|chunk| - 1], chunk, buf.startTime, buf.endTime, buf.timestamp));
      routeBuffers := routeBuffers[key := Buffer(buf.samples[max..], buf.endTime, buf.endTime, buf.timestamp)];
    }

    /** The route is rate-limited and sent something less than an interval ago; time zero if it never did. */
    ghost predicate Tight(key: Route, prefs: Prefs, now: real)
      reads this
    {
      && prefs.minInterval > 0.0 && prefs.maxBuffer == None
      && now - (if key in routeTs then routeTs[key] else 0.0) < prefs.minInterval
    }

    /** One payload on one route. */
    method Forward(key: Route, prefs: Prefs, p: Payload, now: real) returns (command: Option<Command>)
      modifies this
      ensures Abs() == DeliverOn(old(Abs()), key, Delivery(prefs, p, now))
      ensures command == Step(View(old(Abs()), key), Delivery(prefs, p, now)).1
      ensures old(Tight(key, prefs, now)) ==> command == None && Abs() == old(Abs())
      ensures !old(Tight(key, prefs, now)) ==>
        && routeTs == (if prefs.minInterval > 0.0 && prefs.maxBuffer == None then old(routeTs)[key := now]
                       else old(routeTs))
        && match prefs.maxBuffer {
             case Some(n) =>
               if n > 0 then
                 && key in routeBuffers
                 && (p.samples != [] ==>
                       Rechunked(Held(old(routeBuffers), key) + p.samples, n, command, routeBuffers[key].samples))
                 && (p.samples == [] ==>
                       Rechunked(Held(old(routeBuffers), key) + [Number(if p.value.Number? then p.value.v else 0.0)], n,
                                 command, routeBuffers[key].samples))
               else
                 && routeBuffers == old(routeBuffers)
                 && if prefs.scalarOnly || n == 0 then IsScalar(command, p) else command == Some(Whole(p))
             case None =>
               && routeBuffers == old(routeBuffers)
               && if prefs.scalarOnly then IsScalar(command, p) else command == Some(Whole(p))
           }
    {
      hide Rechunked, Picked, Contribution;
      if prefs.minInterval > 0.0 && prefs.maxBuffer.None? {
        var last := if key in routeTs then routeTs[key] else 0.0;
        if now - last < prefs.minInterval {
          return None;
        }
        routeTs := routeTs[key := now];
      }
      if prefs.maxBuffer.Some? && prefs.maxBuffer.value > 0 {
        command := Repackage(key, p, prefs.maxBuffer.value);
      } else if prefs.scalarOnly || prefs.maxBuffer == Some(0) {
        var val := PickObservedValue(p);
        command := Some(Scalar(val, p.timestamp));
      } else {
        command := Some(Whole(p));
      }
    }

    /** `_route_to_actuators`: the clock is read once, offline actuators are skipped. */
    method RouteToActuators(source: string, targets: seq<Target>, p: Payload, now: real)
      returns (emitted: seq<Emission>)
      requires Apart(targets)
      modifies this
      ensures Abs() == Run(old(Abs()), Deliveries(source, targets, p, now))
      ensures emitted == Emissions(old(Abs()), source, targets, p, now)
      ensures forall e :: e in emitted ==> Addressed(targets, e)
      ensures forall x :: x in targets && x.sid.Some? ==> Served(old(Abs()), source, x, p, now, emitted)
      ensures forall x :: x in targets && x.sid.Some? ==> Moved(old(Abs()), Abs(), source, x, p, now)
      ensures forall k: Route :: k.0 != source || !Aims(targets, k.1) ==>
                View(Abs(), k) == View(old(Abs()), k)
    {
      hide Step, DeliveryPrefs, Served, Moved, Addressed, Aims;
      ghost var t0 := Abs();
      emitted := [];
      for i := 0 to |targets|
        invariant Abs() == Run(t0, Deliveries(source, targets[..i], p, now))
        invariant emitted == Emissions(t0, source, targets[..i], p, now)
        invariant forall j :: i <= j < |targets| ==>
                    View(Abs(), (source, targets[j].actuator)) == View(t0, (source, targets[j].actuator))
      {
        var target := targets[i];
        assert targets[..i + 1][..i] == targets[..i] && targets[..i + 1][i] == target;
        if target.sid.None? {
          assert Deliveries(source, targets[..i + 1], p, now) == Deliveries(source, targets[..i], p, now);
          assert Emissions(t0, source, targets[..i + 1], p, now) == Emissions(t0, source, targets[..i], p, now);
          continue;
        }
        var key, prefs := (source, target.actuator), DeliveryPrefs(target.config);
        ghost var t, e := Abs(), Deliver(key, ToTarget(target, p, now));
        RunAppend(t0, Deliveries(source, targets[..i], p, now), e);
        forall j | i < j < |targets|
          ensures View(Next(t, e), (source, targets[j].actuator)) == View(t0, (source, targets[j].actuator))
        {
          NextView(t, e, (source, targets[j].actuator));
        }
        var command := Forward(key, prefs, p, now);
        if command.Some? {
          emitted := emitted + [Emission(target.sid.value, target.actuator, command.value)];
        }
      }
      assert targets[..|targets|] == targets;
      RoundHolds(t0, source, targets, p, now);
    }
  }
}
