/**
 The stores kept beside the provider registry, the routing table from data sources to
 actuators and the tags of trusted UI sources, and the facade that removes a session or a
 manifest from all of them.
 */
module SystemState {
  import opened Options
  import opened IdIndex
  import opened Registry
  import opened RegistryExactness
  import opened ProviderRegistry

  /** Source id to the actuator ids it feeds. */
  type Links = map<string, set<string>>

  datatype System = System(registry: State, links: Links, uiInternal: set<string>)

  predicate Linked(links: Links, source: string, target: string) {
    source in links && target in links[source]
  }

  ghost predicate NoEmptyTargets(links: Links) {
    forall source :: source in links ==> links[source] != {}
  }

  /** The routes that mention no id of `gone`, on either side. */
  function Purge(links: Links, gone: set<string>): Links {
    map source | source in links && source !in gone && links[source] - gone != {} :: links[source] - gone
  }

  function Gone(ms: seq<Manifest>): set<string> {
    ProviderIdsOf(ms) + TaskIdsOf(ms)
  }

  /** The ids a removal takes away are those its manifests and their tasks carry. */
  lemma GoneExactly(ms: seq<Manifest>, id: string)
    ensures id in Gone(ms) <==> id != "" && CarriedBy(ms, id)
  {
    if id != "" {
      var sid: Sid := "s";
      RegisteredExactly(EMPTY.(providers := map[sid := ms]), sid, id);
    }
    hide CarriedBy;
  }

  function GoneOne(m: Manifest): set<string> {
    Single(m.id) + TaskIds(m.tasks)
  }

  /** `remove_provider`. */
  function ProviderRemoved(y: System, sid: Sid): System {
    var gone := Gone(Session(y.registry, sid));
    System(PopProvider(y.registry, sid), Purge(y.links, gone), y.uiInternal - gone)
  }

  /** `remove_manifest_from_sid`. */
  function ManifestRemoved(y: System, sid: Sid, id: string): System {
    var gone := Gone(Named(Session(y.registry, sid), id));
    System(PopManifest(y.registry, sid, id), Purge(y.links, gone), y.uiInternal - gone)
  }

  // ---------------------------------------------------------------- the routing table

  /** A table without empty target sets is its routes: equal routes, equal tables. */
  lemma RoutesDetermine(a: Links, b: Links)
    requires NoEmptyTargets(a) && NoEmptyTargets(b)
    requires forall s, t :: Linked(a, s, t) <==> Linked(b, s, t)
    ensures a == b
  {
    forall s | s in a ensures s in b && a[s] == b[s] {
      var t :| t in a[s];
      assert Linked(a, s, t) && Linked(b, s, t);
      assert forall u :: u in a[s] <==> Linked(a, s, u);
      assert forall u :: u in b[s] <==> Linked(b, s, u);
    }
    forall s | s in b ensures s in a {
      var t :| t in b[s];
      assert Linked(b, s, t) && Linked(a, s, t);
    }
  }

  lemma PurgeRoutes(links: Links, gone: set<string>, s: string, t: string)
    ensures Linked(Purge(links, gone), s, t) <==> Linked(links, s, t) && s !in gone && t !in gone
    ensures NoEmptyTargets(Purge(links, gone))
  {
    if Linked(links, s, t) && s !in gone && t !in gone {
      assert t in links[s] - gone;
    }
  }

  // ---------------------------------------------------------------- nothing dangles

  /** The stores in which an id can survive its manifest. */
  ghost predicate Mentioned(y: System, id: string) {
    || id in y.registry.providerIndex
    || id in y.registry.taskIndex
    || id in y.registry.decoders
    || id in y.uiInternal
    || exists other :: Linked(y.links, id, other) || Linked(y.links, other, id)
  }

  lemma PurgedNowhere(links: Links, gone: set<string>, id: string)
    requires id in gone
    ensures forall other :: !Linked(Purge(links, gone), id, other) && !Linked(Purge(links, gone), other, id)
  {
  }

  lemma DecodedIsIndexed(s: State, id: string)
    requires Exact(s) && id in s.decoders
    ensures id in s.taskIndex
  {
    hide Sound, Complete, AllApart, DecoderTable;
  }

  /** After a session is removed, none of the ids it registered is mentioned anywhere. */
  lemma SessionRemovalLeavesNothing(y: System, sid: Sid, id: string)
    requires Exact(y.registry) && id in Registered(y.registry, sid)
    ensures !Mentioned(ProviderRemoved(y, sid), id)
  {
    hide Exact, PopProvider, Purge, ProviderIdsOf, TaskIdsOf;
    var r, r' := y.registry, PopProvider(y.registry, sid);
    assert id in Gone(Session(r, sid));
    PurgedNowhere(y.links, Gone(Session(r, sid)), id);
    PopProviderExact(r, sid);
    assert Sound(r) && Complete(r) && Sound(r') && Complete(r') by { ExactParts(r); ExactParts(r'); }
    assert id != "";
    hide Sound, Complete;
    PopProviderExactly(r, sid);
    FindIsScan(r, id, sid);
    OnlyOwner(r, id, sid);
    if id in r'.decoders {
      DecodedIsIndexed(r', id);
    }
  }

  lemma ExactParts(s: State)
    requires Exact(s)
    ensures Sound(s) && Complete(s)
  {
    hide Sound, Complete, AllApart, CacheExact;
  }

  /** Every entry for an id a session registers points at that session. */
  lemma OnlyOwner(s: State, id: string, sid: Sid)
    requires Sound(s) && Complete(s) && id in Registered(s, sid)
    ensures id in s.providerIndex ==> s.providerIndex[id] == sid
    ensures id in s.taskIndex ==> s.taskIndex[id] == sid
  {
    assert OneNamespace(s) && id != "" by {
      hide Sound, IndexComplete;
    }
    hide Sound, Complete, OneNamespace;
    IndexedExactly(s, sid, id);
    if id in s.providerIndex {
      IndexedExactly(s, s.providerIndex[id], id);
      OneOwner(s, id, sid, s.providerIndex[id]);
    }
    if id in s.taskIndex {
      IndexedExactly(s, s.taskIndex[id], id);
      OneOwner(s, id, sid, s.taskIndex[id]);
    }
  }

  /**
   After one manifest is removed, an id it registered is still looked up exactly when
   another manifest of the session carries it too (as an id of the other kind); no decoder
   of its tasks, no route and no tag mentions it.
   */
  lemma ManifestRemovalLeavesNothing(y: System, sid: Sid, pid: string, id: string)
    requires Exact(y.registry) && id in Gone(Named(Session(y.registry, sid), pid))
    ensures var y', rest := ManifestRemoved(y, sid, pid), Gone(Others(Session(y.registry, sid), pid));
            && (Find(y'.registry, id).Some? <==> id in rest)
            && (id in TaskIdsOf(Named(Session(y.registry, sid), pid)) ==> id !in y'.registry.decoders)
            && id !in y'.uiInternal
            && forall other :: !Linked(y'.links, id, other) && !Linked(y'.links, other, id)
  {
    hide Exact, PopManifest, Purge, Named, Others, ProviderIdsOf, TaskIdsOf, DropOwned, Pointing;
    var r, r', ms := y.registry, PopManifest(y.registry, sid, pid), Session(y.registry, sid);
    PurgedNowhere(y.links, Gone(Named(ms, pid)), id);
    NothingNamed(pid);
    assert sid in r.providers;
    PopManifestExact(r, sid, pid);
    ExactParts(r);
    ExactParts(r');
    SoundStamped(r, sid);
    PopManifestClosed(r, sid, pid);
    SplitIds(ms, pid);
    assert id in Registered(r, sid);
    hide Sound, Complete;
    FindIsScan(r', id, sid);
    if Find(r', id).Some? {
      FoundWasOwned(r, r', sid, id);
    }
  }

  lemma NothingNamed(pid: string)
    ensures Gone(Named([], pid)) == {}
  {
  }

  /** Dropping entries of a session never makes an id it owned another session's. */
  lemma FoundWasOwned(r: State, r': State, sid: Sid, id: string)
    requires Sound(r) && Complete(r) && Sound(r') && Complete(r') && id in Registered(r, sid)
    requires r'.providers == r.providers[sid := Session(r', sid)]
    requires Find(r', id).Some?
    ensures Find(r', id) == Some(sid)
  {
    hide Sound, Complete, ProviderIdsOf, TaskIdsOf;
    var owner := Find(r', id).value;
    FindIsScan(r', id, owner);
    if owner != sid {
      assert Session(r', owner) == Session(r, owner);
      OneOwner(r, id, owner, sid);
    }
  }

  /** Everything about the ids that stay, and every other session, is left as it was. */
  lemma RemovalFrame(y: System, sid: Sid, id: string, other: Sid)
    requires Sound(y.registry) && id !in Gone(Session(y.registry, sid)) && other != sid
    ensures var y' := ProviderRemoved(y, sid);
            && Session(y'.registry, other) == Session(y.registry, other)
            && Find(y'.registry, id) == Find(y.registry, id)
            && (id in y'.registry.decoders <==> id in y.registry.decoders)
            && (id in y'.registry.decoders ==> y'.registry.decoders[id] == y.registry.decoders[id])
            && (id in y'.uiInternal <==> id in y.uiInternal)
            && forall t :: t !in Gone(Session(y.registry, sid)) ==>
               (Linked(y'.links, id, t) <==> Linked(y.links, id, t))
  {
    hide Sound, PopProvider, Purge, ProviderIdsOf, TaskIdsOf;
    var r := y.registry;
    forall t { PurgeRoutes(y.links, Gone(Session(r, sid)), id, t); }
    PopProviderExactly(r, sid);
    OwnerLists(r, sid, id);
  }

  /** An entry that points at a session is for an id that the session lists. */
  lemma OwnerLists(s: State, sid: Sid, id: string)
    requires Sound(s)
    ensures id in s.providerIndex && s.providerIndex[id] == sid ==> id in ProviderIds(s, sid)
    ensures id in s.taskIndex && s.taskIndex[id] == sid ==> id in SessionTaskIds(s, sid)
  {
    hide ProviderTable, TaskTable, ProviderIds, SessionTaskIds;
    SessionTables(s, sid);
  }

  /** The same when one manifest is removed; the session keeps its other manifests. */
  lemma ManifestRemovalFrame(y: System, sid: Sid, pid: string, id: string, other: Sid)
    requires Sound(y.registry) && id !in Gone(Named(Session(y.registry, sid), pid)) && other != sid
    ensures var y', gone := ManifestRemoved(y, sid, pid), Gone(Named(Session(y.registry, sid), pid));
            && Session(y'.registry, other) == Session(y.registry, other)
            && Session(y'.registry, sid) == Others(Session(y.registry, sid), pid)
            && Find(y'.registry, id) == Find(y.registry, id)
            && (id in y'.registry.decoders <==> id in y.registry.decoders)
            && (id in y'.registry.decoders ==> y'.registry.decoders[id] == y.registry.decoders[id])
            && (id in y'.uiInternal <==> id in y.uiInternal)
            && forall t :: t !in gone ==> (Linked(y'.links, id, t) <==> Linked(y.links, id, t))
  {
    hide PopManifest, Purge, ProviderIdsOf, TaskIdsOf, Named, Others, Pointing, IndexSound;
    var r, ms := y.registry, Session(y.registry, sid);
    forall t { PurgeRoutes(y.links, Gone(Named(ms, pid)), id, t); }
    SoundStamped(r, sid);
    hide Sound;
    if sid in r.providers {
      PopManifestClosed(r, sid, pid);
      DropForeign(r.providerIndex, ProviderIdsOf(Named(ms, pid)), id, sid);
      DropForeign(r.taskIndex, TaskIdsOf(Named(ms, pid)), id, sid);
    } else {
      NothingThere(r, sid, pid);
    }
  }

  lemma DropForeign(index: Index, gone: set<string>, id: string, sid: Sid)
    requires id !in gone
    ensures var d := DropOwned(index, gone, sid) + Pointing({}, sid);
            (id in d <==> id in index) && (id in d ==> d[id] == index[id])
  {
  }

  lemma NothingThere(s: State, sid: Sid, pid: string)
    requires sid !in s.providers
    ensures PopManifest(s, sid, pid) == s && Others(Session(s, sid), pid) == Session(s, sid)
  {
  }

  // ---------------------------------------------------------------- late disconnects

  /**
   The late disconnect of a session whose ids have moved to another session. With merely
   sound indices the lookup still names the new session, but the decoder, the tag and the
   routes of an id go with the old session exactly when that still lists an id involved.
   */
  lemma StaleDisconnect(y: System, sid: Sid, id: string)
    requires Sound(y.registry) && Find(y.registry, id).Some? && Find(y.registry, id).value != sid
    ensures var y', gone := ProviderRemoved(y, sid), Gone(Session(y.registry, sid));
            && Find(y'.registry, id) == Find(y.registry, id)
            && (id in y.registry.decoders ==> (id in y'.registry.decoders <==> id !in SessionTaskIds(y.registry, sid)))
            && (id in y.uiInternal ==> (id in y'.uiInternal <==> id !in gone))
            && (forall t :: Linked(y.links, id, t) ==> (Linked(y'.links, id, t) <==> {id, t} !! gone))
            && (forall t :: Linked(y.links, t, id) ==> (Linked(y'.links, t, id) <==> {id, t} !! gone))
  {
    hide Sound, PopProvider, Purge, Gone;
    PopProviderExactly(y.registry, sid);
    forall t, u { PurgeRoutes(y.links, Gone(Session(y.registry, sid)), t, u); }
  }

  /** An id that is not found at a session is not listed by it, when the indices are complete. */
  lemma FoundElsewhere(s: State, sid: Sid, id: string)
    requires Sound(s) && Complete(s) && Find(s, id) != Some(sid)
    ensures id !in Gone(Session(s, sid))
  {
    hide Sound, Complete;
    if id in Gone(Session(s, sid)) {
      FindIsScan(s, id, sid);
    }
  }

  /**
   So with complete indices a late disconnect harms no id that has moved on, and no route
   between ids the session does not own. `RegistryCompleteness.RunCompleteExactly` says
   which runs keep them complete.
   */
  lemma LateDisconnect(y: System, sid: Sid, id: string, t: string)
    requires Sound(y.registry) && Complete(y.registry)
    requires Find(y.registry, id) != Some(sid) && Find(y.registry, t) != Some(sid)
    ensures var y' := ProviderRemoved(y, sid);
            && Find(y'.registry, id) == Find(y.registry, id)
            && (id in y'.registry.decoders <==> id in y.registry.decoders)
            && (id in y'.registry.decoders ==> y'.registry.decoders[id] == y.registry.decoders[id])
            && (id in y'.uiInternal <==> id in y.uiInternal)
            && (Linked(y'.links, id, t) <==> Linked(y.links, id, t))
  {
    hide Sound, Complete, ProviderRemoved, Find, Gone;
    FoundElsewhere(y.registry, sid, id);
    FoundElsewhere(y.registry, sid, t);
    RemovalFrame(y, sid, id, if sid == "s" then "t" else "s");
  }

  lemma LateDisconnectOnEveryRun(events: seq<Event>, sid: Sid, id: string, t: string)
    requires OrderlyRun(NOTHING, events)
    requires var y := Run(NOTHING, events); Find(y.registry, id) != Some(sid) && Find(y.registry, t) != Some(sid)
    ensures var y, y' := Run(NOTHING, events), Run(NOTHING, events + [Remove(sid)]);
            && Find(y'.registry, id) == Find(y.registry, id)
            && (id in y'.registry.decoders <==> id in y.registry.decoders)
            && (id in y'.uiInternal <==> id in y.uiInternal)
            && (Linked(y'.links, id, t) <==> Linked(y.links, id, t))
  {
    hide Exact, OrderlyRun, ProviderRemoved, Find, Run, Sound, Complete;
    EmptyExact();
    OrderlyRunExact(NOTHING, events);
    var y := Run(NOTHING, events);
    ExactParts(y.registry);
    RunSnoc(NOTHING, events, Remove(sid));
    LateDisconnect(y, sid, id, t);
  }

  /**
   And without the check the harm is real: two sessions that both pass the check before
   either inserts register the same manifest, and the end of the first takes the decoders
   and tags of the second.
   */
  lemma RacingRegistrations(a: Sid, b: Sid, m: Manifest, id: string)
    requires a != b && DistinctIds(m.tasks) && id in BuildDecoders(m.tasks)
    ensures Accepts(EMPTY, a, m) && Accepts(EMPTY, b, m)
    ensures var y := Run(NOTHING, [OnRegistry(DoInsert(a, m)), OnRegistry(DoInsert(b, m)), Mark(id)]);
            var y' := ProviderRemoved(y, a);
            && id in y.registry.decoders && id in y.uiInternal
            && Session(y'.registry, b) == [m.(sid := b)] && Find(y'.registry, id) == Some(b)
            && id !in y'.registry.decoders && id !in y'.uiInternal
  {
    hide Insert, BuildDecoders, PopProvider, DistinctIds, Next, Run, Sound, TaskIds, Conflicts, Purge, Find,
         TaskIdsOf, ProviderIdsOf;
    var s2 := Insert(Insert(EMPTY, a, m), b, m);
    var y := System(s2, map[], {id});
    assert Run(NOTHING, [OnRegistry(DoInsert(a, m)), OnRegistry(DoInsert(b, m)), Mark(id)]) == y by {
      RunThree(NOTHING, OnRegistry(DoInsert(a, m)), OnRegistry(DoInsert(b, m)), Mark(id));
      InsertSteps(a, b, m, id);
    }
    assert Conflicts(EMPTY, a, m) == {} && Conflicts(EMPTY, b, m) == {} by { NoConflictsYet(a, m);
           NoConflictsYet(b, m); }
    BothRegistered(a, b, m, id);
    StaleDisconnect(y, a, id);
    PopProviderExactly(s2, a);
  }

  lemma NoConflictsYet(sid: Sid, m: Manifest)
    ensures Conflicts(EMPTY, sid, m) == {}
  {
  }

  lemma BothRegistered(a: Sid, b: Sid, m: Manifest, id: string)
    requires a != b && id in BuildDecoders(m.tasks)
    ensures var s2 := Insert(Insert(EMPTY, a, m), b, m);
            && Sound(s2) && s2.providers == map[a := [m.(sid := a)], b := [m.(sid := b)]]
            && Find(s2, id) == Some(b) && id in s2.decoders && id in SessionTaskIds(s2, a)
  {
    hide Insert, BuildDecoders, Sound, TaskIdsOf, TaskIds, Single, Exact;
    var s1 := Insert(EMPTY, a, m);
    var s2 := Insert(s1, b, m);
    assert Sound(EMPTY) by { EmptyExact(); ExactParts(EMPTY); }
    InsertSound(EMPTY, a, m);
    InsertSound(s1, b, m);
    InsertFresh(EMPTY, a, m);
    InsertFresh(s1, b, m);
    assert Session(s2, a) == Session(s1, a);
  }

  lemma InsertSteps(a: Sid, b: Sid, m: Manifest, id: string)
    requires id != ""
    ensures Next(Next(Next(NOTHING, OnRegistry(DoInsert(a, m))), OnRegistry(DoInsert(b, m))), Mark(id))
            == System(Insert(Insert(EMPTY, a, m), b, m), map[], {id})
  {
    hide Insert;
  }

  lemma {:induction false} RunThree(y: System, e: Event, f: Event, g: Event)
    ensures Run(y, [e, f, g]) == Next(Next(Next(y, e), f), g)
  {
    hide Next;
    assert [e, f, g][1..] == [f, g] && [f, g][1..] == [g] && [g][1..] == [];
    assert Run(y, [e, f, g]) == Run(Next(y, e), [f, g]);
    assert Run(Next(y, e), [f, g]) == Run(Next(Next(y, e), f), [g]);
  }

  lemma NoIds()
    ensures TaskIdsOf([]) == {} && ProviderIdsOf([]) == {}
  {
  }

  /** Registering the first manifest of a session. */
  lemma InsertFresh(s: State, sid: Sid, m: Manifest)
    requires sid !in s.providers
    ensures var s' := Insert(s, sid, m);
            && s'.providers == s.providers[sid := [m.(sid := sid)]]
            && s'.decoders == s.decoders + BuildDecoders(m.tasks)
            && s'.providerIndex == s.providerIndex + Pointing(Single(m.id), sid)
            && s'.taskIndex == s.taskIndex + Pointing(TaskIds(m.tasks), sid)
            && SessionTaskIds(s', sid) == TaskIds(m.tasks)
  {
    hide BuildDecoders, Insert, Pointing, DropOwned, TaskIdsOf, ProviderIdsOf, TaskIds, Single;
    assert Session(s, sid) == [];
    NoIds();
    DropTwice(s.providerIndex, {}, {}, sid);
    DropTwice(s.taskIndex, {}, {}, sid);
    AppendIds([], m.(sid := sid));
    assert Named([], m.id) == [] && Others([], m.id) == [] && [] + [m.(sid := sid)] == [m.(sid := sid)];
    InsertClosed(s, sid, m);
  }

  // ---------------------------------------------------------------- runs

  datatype Event =
    | OnRegistry(event: Registry.Event)
    | Link(source: string, target: string)
    | Unlink(source: string, target: string)
    | Mark(id: string)
    | Remove(sid: Sid)
    | RemoveOne(sid: Sid, id: string)

  function AddLink(links: Links, source: string, target: string): Links {
    if source == "" || target == "" then links
    else links[source := (if source in links then links[source] else {}) + {target}]
  }

  function DropLink(links: Links, source: string, target: string): Links {
    if source !in links || links[source] == {} then links
    else if links[source] - {target} == {} then links - {source}
    else links[source := links[source] - {target}]
  }

  function Next(y: System, e: Event): System {
    match e
    case OnRegistry(r) => y.(registry := Registry.Next(y.registry, r))
    case Link(s, t) => y.(links := AddLink(y.links, s, t))
    case Unlink(s, t) => y.(links := DropLink(y.links, s, t))
    case Mark(id) => if id == "" then y else y.(uiInternal := y.uiInternal + {id})
    case Remove(sid) => ProviderRemoved(y, sid)
    case RemoveOne(sid, id) => ManifestRemoved(y, sid, id)
  }

  function Run(y: System, events: seq<Event>): System
    decreases |events|
  {
    if events == [] then y else Run(Next(y, events[0]), events[1..])
  }

  /** What no event undoes: sound indices, and no source without targets. */
  ghost predicate Inv(y: System) {
    Sound(y.registry) && NoEmptyTargets(y.links)
  }

  lemma LinkSteps(links: Links, s: string, t: string)
    requires NoEmptyTargets(links)
    ensures NoEmptyTargets(AddLink(links, s, t)) && NoEmptyTargets(DropLink(links, s, t))
    ensures forall a, b :: Linked(AddLink(links, s, t), a, b) <==>
            Linked(links, a, b) || (a == s && b == t && s != "" && t != "")
    ensures forall a, b :: Linked(DropLink(links, s, t), a, b) <==> Linked(links, a, b) && !(a == s && b == t)
  {
    forall a, b | Linked(links, a, b) && !(a == s && b == t) ensures Linked(DropLink(links, s, t), a, b) {
      if a == s {
        assert b in links[s] - {t};
      }
    }
  }

  lemma NextInv(y: System, e: Event)
    requires Inv(y)
    ensures Inv(Next(y, e))
  {
    hide Sound, PopProvider, PopManifest;
    match e {
      case OnRegistry(r) => NextSound(y.registry, r);
      case Link(s, t) => LinkSteps(y.links, s, t);
      case Unlink(s, t) => LinkSteps(y.links, s, t);
      case Mark(_) =>
      case Remove(sid) =>
        PopProviderSound(y.registry, sid);
      case RemoveOne(sid, id) =>
        PopManifestSound(y.registry, sid, id);
    }
  }

  lemma {:induction false} RunInv(y: System, events: seq<Event>)
    requires Inv(y)
    ensures Inv(Run(y, events))
    decreases |events|
  {
    hide Inv, Next;
    if events == [] {
    } else {
      NextInv(y, events[0]);
      RunInv(Next(y, events[0]), events[1..]);
    }
  }

  /** A run that registers orderly; removals, links and tags are free. */
  ghost predicate OrderlyRun(y: System, events: seq<Event>)
    decreases |events|
  {
    events == [] ||
    ((events[0].OnRegistry? ==> Orderly(y.registry, events[0].event)) && OrderlyRun(Next(y, events[0]), events[1..]))
  }

  lemma {:induction false} OrderlyRunExact(y: System, events: seq<Event>)
    requires Exact(y.registry) && OrderlyRun(y, events)
    ensures Exact(Run(y, events).registry)
    decreases |events|
  {
    hide Exact, Orderly, PopProvider, PopManifest, Registry.Next, Purge, AddLink, DropLink;
    if events == [] {
    } else {
      match events[0] {
        case OnRegistry(e) => NextExact(y.registry, e);
        case Remove(sid) => PopProviderExact(y.registry, sid);
        case RemoveOne(sid, id) => PopManifestExact(y.registry, sid, id);
        case _ =>
      }
      OrderlyRunExact(Next(y, events[0]), events[1..]);
    }
  }

  const NOTHING := System(EMPTY, map[], {})

  /** Nothing dangles on any orderly run: wherever a session is removed, none of its ids is left. */
  lemma RemovalOnEveryRun(events: seq<Event>, sid: Sid, id: string)
    requires OrderlyRun(NOTHING, events) && id in Registered(Run(NOTHING, events).registry, sid)
    ensures !Mentioned(Run(NOTHING, events + [Remove(sid)]), id)
  {
    hide Mentioned, Exact, Registered, OrderlyRun, ProviderRemoved;
    EmptyExact();
    OrderlyRunExact(NOTHING, events);
    SessionRemovalLeavesNothing(Run(NOTHING, events), sid, id);
    RunSnoc(NOTHING, events, Remove(sid));
  }

  lemma {:induction false} RunSnoc(y: System, events: seq<Event>, e: Event)
    ensures Run(y, events + [e]) == Next(Run(y, events), e)
    decreases |events|
  {
    hide Next;
    if events == [] {
      assert events + [e] == [e] && [e][1..] == [];
    } else {
      assert (events + [e])[1..] == events[1..] + [e];
      RunSnoc(Next(y, events[0]), events[1..], e);
    }
  }

  /** The events that carry an id into some store. */
  ghost predicate Brings(e: Event, id: string) {
    match e
    case OnRegistry(DoAdd(_, m)) => id in GoneOne(m)
    case OnRegistry(DoInsert(_, m)) => id in GoneOne(m)
    case OnRegistry(DoUpdate(_, m)) => id in GoneOne(m)
    case Link(s, t) => id == s || id == t
    case Mark(x) => id == x
    case _ => false
  }

  ghost predicate NoneBrings(events: seq<Event>, id: string) {
    forall e :: e in events ==> !Brings(e, id)
  }

  /** Neither index nor the decoder cache has an entry for the id. */
  ghost predicate Unknown(s: State, id: string) {
    id !in s.providerIndex && id !in s.taskIndex && id !in s.decoders
  }

  lemma {:induction false} ForgetAllUnknown(s: State, ms: seq<Manifest>, id: string)
    requires Unknown(s, id)
    ensures Unknown(ForgetAll(s, ms), id)
    decreases |ms|
  {
    if ms == [] {
    } else {
      ForgetAllUnknown(Forget(s, ms[0]), ms[1..], id);
    }
  }

  lemma RegistryUnknown(s: State, e: Registry.Event, id: string)
    requires Unknown(s, id) && !Brings(OnRegistry(e), id)
    ensures Unknown(Registry.Next(s, e), id)
  {
    hide ForgetAll, BuildDecoders, Named, Others, Conflicts, DistinctIds;
    match e {
      case DoAdd(sid, m) => ForgetAllUnknown(s, Named(Session(s, sid), m.id), id);
      case DoInsert(sid, m) => ForgetAllUnknown(s, Named(Session(s, sid), m.id), id);
      case DoUpdate(_, _) =>
      case DoPopManifest(sid, pid) => ForgetAllUnknown(s, Named(Session(s, sid), pid), id);
      case DoPopProvider(sid) => ForgetAllUnknown(s, Session(s, sid), id);
    }
  }

  lemma StaysUnmentionedOnce(y: System, e: Event, id: string)
    requires !Mentioned(y, id) && NoEmptyTargets(y.links) && !Brings(e, id)
    ensures !Mentioned(Next(y, e), id)
  {
    hide ForgetAll, Insert, Update, Accepts, PopProvider, PopManifest, Purge, AddLink, DropLink, NoEmptyTargets;
    assert Unknown(y.registry, id);
    match e {
      case OnRegistry(r) => RegistryUnknown(y.registry, r, id);
      case Link(s, t) => LinkSteps(y.links, s, t);
      case Unlink(s, t) => LinkSteps(y.links, s, t);
      case Mark(_) =>
      case Remove(sid) =>
        RegistryUnknown(y.registry, DoPopProvider(sid), id);
        forall a, b { PurgeRoutes(y.links, Gone(Session(y.registry, sid)), a, b); }
      case RemoveOne(sid, pid) =>
        RegistryUnknown(y.registry, DoPopManifest(sid, pid), id);
        forall a, b { PurgeRoutes(y.links, Gone(Named(Session(y.registry, sid), pid)), a, b); }
    }
    assert Unknown(Next(y, e).registry, id);
  }

  lemma {:induction false} StaysUnmentioned(y: System, events: seq<Event>, id: string)
    requires Inv(y) && !Mentioned(y, id) && NoneBrings(events, id)
    ensures !Mentioned(Run(y, events), id)
    decreases |events|
  {
    hide Mentioned, Next, Brings, Sound, NoEmptyTargets;
    if events == [] {
    } else {
      NextInv(y, events[0]);
      StaysUnmentionedOnce(y, events[0], id);
      StaysUnmentioned(Next(y, events[0]), events[1..], id);
    }
  }

  /**
   A removed session's ids stay gone: on every run after the removal, no store mentions one
   of them until an event carries it in again.
   */
  lemma RemovedUntilBroughtBack(y: System, sid: Sid, id: string, events: seq<Event>)
    requires Inv(y) && Exact(y.registry) && id in Registered(y.registry, sid) && NoneBrings(events, id)
    ensures !Mentioned(Run(ProviderRemoved(y, sid), events), id)
  {
    hide Mentioned, Exact, Registered, Inv, NoneBrings, Run, ProviderRemoved;
    SessionRemovalLeavesNothing(y, sid, id);
    NextInv(y, Remove(sid));
    StaysUnmentioned(ProviderRemoved(y, sid), events, id);
  }

  // ---------------------------------------------------------------- the stores as objects

  class ActuatorLinkRegistry {
    var links: Links

    constructor ()
      ensures links == map[]
    {
      links := map[];
    }

    method AddActuatorLink(source: string, target: string)
      modifies this
      ensures links == AddLink(old(links), source, target)
    {
      if source == "" || target == "" {
        return;
      }
      if source !in links {
        links := links[source := {}];
      }
      links := links[source := links[source] + {target}];
    }

    method RemoveActuatorLink(source: string, target: string)
      modifies this
      ensures links == DropLink(old(links), source, target)
    {
      if source in links && links[source] != {} {
        links := links[source := links[source] - {target}];
        if links[source] == {} {
          links := links - {source};
        }
      }
    }

    method GetActuatorLinks(source: string) returns (targets: seq<string>)
      ensures forall t :: t in targets <==> Linked(links, source, t)
      ensures forall i, j :: 0 <= i < j < |targets| ==> targets[i] != targets[j]
    {
      targets := [];
      var left := if source in links then links[source] else {};
      while left != {}
        invariant forall t :: t in targets || t in left <==> Linked(links, source, t)
        invariant forall t :: !(t in targets && t in left)
        invariant forall i, j :: 0 <= i < j < |targets| ==> targets[i] != targets[j]
      {
        var t :| t in left;
        targets, left := targets + [t], left - {t};
      }
    }

    /** Drop every route that mentions an id of the manifests, on either side. */
    method PurgeFor(ms: seq<Manifest>)
      requires NoEmptyTargets(links)
      modifies this
      ensures links == Purge(old(links), Gone(ms)) && NoEmptyTargets(links)
      ensures forall s, t :: Linked(links, s, t) <==>
                Linked(old(links), s, t) && (s == "" || !CarriedBy(ms, s)) && (t == "" || !CarriedBy(ms, t))
    {
      hide CarriedBy, Gone;
      var gone := CollectIds(ms);
      var todo := gone;
      while todo != {}
        invariant todo <= gone
        invariant links == old(links) - (gone - todo)
      {
        var id :| id in todo;
        links, todo := links - {id}, todo - {id};
      }
      PruneTargets(gone);
      forall s, t ensures Linked(links, s, t) <==>
          Linked(old(links), s, t) && (s == "" || !CarriedBy(ms, s)) && (t == "" || !CarriedBy(ms, t))
      {
        PurgeRoutes(old(links), gone, s, t);
        GoneExactly(ms, s);
        GoneExactly(ms, t);
      }
    }

    method PruneTargets(gone: set<string>)
      requires NoEmptyTargets(links)
      modifies this
      ensures links == map s | s in old(links) && old(links)[s] - gone != {} :: old(links)[s] - gone
    {
      var todo := links.Keys;
      while todo != {}
        invariant todo <= links.Keys <= old(links).Keys
        invariant forall s :: s in todo ==> links[s] == old(links)[s]
        invariant forall s :: s in old(links).Keys - todo ==> (s in links <==> old(links)[s] - gone != {})
        invariant forall s :: s in links.Keys - todo ==> links[s] == old(links)[s] - gone
      {
        var source :| source in todo;
        todo := todo - {source};
        links := links[source := links[source] - gone];
        if links[source] == {} {
          links := links - {source};
        }
      }
    }
  }

  /** The provider id and the task ids of a manifest. */
  method IdsOfManifest(m: Manifest) returns (ids: set<string>)
    ensures ids == GoneOne(m)
  {
    hide TaskIds;
    ids := if m.id == "" then {} else {m.id};
    NoTasks(m.tasks);
    for j := 0 to |m.tasks|
      invariant ids == Single(m.id) + TaskIds(m.tasks[..j])
    {
      TaskIdsStep(m.tasks, j);
      if m.tasks[j].id != "" {
        ids := ids + {m.tasks[j].id};
      }
    }
    assert m.tasks[..|m.tasks|] == m.tasks;
  }

  lemma GoneStep(ms: seq<Manifest>, i: nat)
    requires i < |ms|
    ensures Gone(ms[..i + 1]) == Gone(ms[..i]) + GoneOne(ms[i])
  {
    hide TaskIds, TaskIdsOf, ProviderIdsOf, Single;
    assert ms[..i + 1] == ms[..i] + [ms[i]];
    AppendIds(ms[..i], ms[i]);
  }

  /** All provider and task ids of some manifests. */
  method CollectIds(ms: seq<Manifest>) returns (gone: set<string>)
    ensures gone == Gone(ms)
  {
    gone := {};
    assert Gone(ms[..0]) == {};
    hide Gone, GoneOne;
    for i := 0 to |ms|
      invariant gone == Gone(ms[..i])
    {
      GoneStep(ms, i);
      var ids := IdsOfManifest(ms[i]);
      gone := gone + ids;
    }
    assert ms[..|ms|] == ms;
  }

  /** The part of the pairing store that tags trusted UI sources. */
  class PairingStore {
    var uiInternalSources: set<string>

    constructor ()
      ensures uiInternalSources == {}
    {
      uiInternalSources := {};
    }

    method MarkUiInternal(id: string)
      modifies this
      ensures uiInternalSources == old(uiInternalSources) + (if id == "" then {} else {id})
    {
      if id == "" {
        return;
      }
      uiInternalSources := uiInternalSources + {id};
    }

    method ForgetSources(ms: seq<Manifest>)
      modifies this
      ensures uiInternalSources == old(uiInternalSources) - Gone(ms)
      ensures forall id :: id in uiInternalSources <==>
                id in old(uiInternalSources) && (id == "" || !CarriedBy(ms, id))
    {
      hide CarriedBy;
      assert Gone(ms[..0]) == {};
      hide Gone, GoneOne;
      for i := 0 to |ms|
        invariant uiInternalSources == old(uiInternalSources) - Gone(ms[..i])
      {
        GoneStep(ms, i);
        ForgetManifestSources(ms[i]);
      }
      assert ms[..|ms|] == ms;
      forall id ensures id in Gone(ms) <==> id != "" && CarriedBy(ms, id) {
        GoneExactly(ms, id);
      }
    }

    method ForgetManifestSources(m: Manifest)
      modifies this
      ensures uiInternalSources == old(uiInternalSources) - GoneOne(m)
    {
      hide TaskIds;
      if m.id != "" {
        uiInternalSources := uiInternalSources - {m.id};
      }
      NoTasks(m.tasks);
      for j := 0 to |m.tasks|
        invariant uiInternalSources == old(uiInternalSources) - (Single(m.id) + TaskIds(m.tasks[..j]))
      {
        TaskIdsStep(m.tasks, j);
        if m.tasks[j].id != "" {
          uiInternalSources := uiInternalSources - {m.tasks[j].id};
        }
      }
      assert m.tasks[..|m.tasks|] == m.tasks;
    }
  }

  class Facade {
    const registry: ProviderRegistry
    const pairing: PairingStore
    const actuators: ActuatorLinkRegistry

    ghost function Abs(): System
      reads registry, pairing, actuators
    {
      System(registry.Abs(), actuators.links, pairing.uiInternalSources)
    }

    constructor ()
      ensures Abs() == System(EMPTY, map[], {})
      ensures fresh(registry) && fresh(pairing) && fresh(actuators)
    {
      registry := new ProviderRegistry();
      pairing := new PairingStore();
      actuators := new ActuatorLinkRegistry();
    }

    method RemoveProvider(sid: Sid) returns (removed: seq<Manifest>)
      requires NoEmptyTargets(actuators.links)
      modifies registry, pairing, actuators
      ensures Abs() == ProviderRemoved(old(Abs()), sid)
      ensures old(Inv(Abs())) ==> Inv(Abs())
      ensures removed == Session(old(registry.Abs()), sid)
      ensures registry.providers == old(registry.providers) - {sid}
      ensures forall id :: id != "" && CarriedBy(removed, id) ==>
                id !in pairing.uiInternalSources
                && forall t :: !Linked(actuators.links, id, t) && !Linked(actuators.links, t, id)
    {
      hide PopProvider, Purge, Gone, Inv, NoEmptyTargets, Exact, CarriedBy;
      ghost var y := Abs();
      removed := registry.PopProvider(sid);
      pairing.ForgetSources(removed);
      actuators.PurgeFor(removed);
      if Inv(y) {
        NextInv(y, Remove(sid));
      }
    }

    method RemoveManifestFromSid(sid: Sid, id: string) returns (removed: seq<Manifest>)
      requires NoEmptyTargets(actuators.links)
      modifies registry, pairing, actuators
      ensures Abs() == ManifestRemoved(old(Abs()), sid, id)
      ensures old(Inv(Abs())) ==> Inv(Abs())
      ensures removed == Named(Session(old(registry.Abs()), sid), id)
      ensures forall x :: x != "" && CarriedBy(removed, x) ==>
                x !in pairing.uiInternalSources
                && forall t :: !Linked(actuators.links, x, t) && !Linked(actuators.links, t, x)
    {
      hide PopManifest, Purge, Gone, Named, Inv, NoEmptyTargets, Exact, CarriedBy;
      ghost var y := Abs();
      removed := registry.PopManifest(sid, id);
      pairing.ForgetSources(removed);
      actuators.PurgeFor(removed);
      if Inv(y) {
        NextInv(y, RemoveOne(sid, id));
      }
    }
  }
}
