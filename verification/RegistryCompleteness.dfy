/**
 Exactly when a locked section of the registry keeps both lookup indices complete, with one
 owner per id, whatever ids the manifests of a session share.
 */
module RegistryCompleteness {
  import opened Options
  import opened IdIndex
  import opened Registry
  import opened RegistryExactness

  // ---------------------------------------------------------------- replacing some ids of a session

  /** What a section changes: ids that go, ids of the session that stay, ids the manifest brings. */
  datatype Change = Change(goneProviders: set<string>, keptProviders: set<string>, goneTasks: set<string>,
                           keptTasks: set<string>)

  ghost predicate Changed(s: State, s': State, sid: Sid, m: Manifest, c: Change) {
    && s'.providerIndex == DropOwned(s.providerIndex, c.goneProviders, sid) + Pointing(Single(m.id), sid)
    && s'.taskIndex == DropOwned(s.taskIndex, c.goneTasks, sid) + Pointing(TaskIds(m.tasks), sid)
    && ProviderTable(s') == ProviderTable(s)[sid := c.keptProviders + Single(m.id)]
    && TaskTable(s') == TaskTable(s)[sid := c.keptTasks + TaskIds(m.tasks)]
  }

  /** The change is about ids of this session, and no other provider id of it is dropped. */
  ghost predicate Own(s: State, sid: Sid, m: Manifest, c: Change) {
    && c.keptProviders <= ProviderIds(s, sid) && c.keptTasks <= SessionTaskIds(s, sid)
    && c.keptProviders * c.goneProviders <= Single(m.id)
  }

  lemma OneNamespaceKept(s: State, s': State, sid: Sid, m: Manifest, c: Change)
    requires OneNamespace(s) && Changed(s, s', sid, m, c) && Conflicts(s, sid, m) == {}
    ensures OneNamespace(s')
  {
    hide Conflicts, TaskIds, Single, ProviderTable, TaskTable;
    NoConflictMeansFree(s, sid, m);
  }

  /** Without conflicts, the two indices are complete exactly when no kept task id is dropped. */
  lemma ChangeWithoutConflict(s: State, s': State, sid: Sid, m: Manifest, c: Change)
    requires Sound(s) && Complete(s) && Changed(s, s', sid, m, c) && Own(s, sid, m, c) && Conflicts(s, sid, m) == {}
    ensures Complete(s') <==> c.keptTasks * c.goneTasks <= TaskIds(m.tasks)
  {
    OneNamespaceKept(s, s', sid, m, c);
    hide Sound, IndexComplete, OwnedElsewhere, ProviderTable, TaskTable, DropOwned, Pointing, Conflicts, TaskIds,
         Single, ProviderIds, SessionTaskIds, OneNamespace;
    FreeNotElsewhere(s, sid, m);
    SessionTables(s, sid);
    ReplaceComplete(s.providerIndex, ProviderTable(s), sid, c.goneProviders, c.keptProviders, Single(m.id));
    ReplaceComplete(s.taskIndex, TaskTable(s), sid, c.goneTasks, c.keptTasks, TaskIds(m.tasks));
  }

  /** A registered id of the manifest that another session owns is a conflict. */
  lemma ConflictIsForeign(s: State, sid: Sid, m: Manifest, id: string)
    requires id in Conflicts(s, sid, m)
    ensures id != "" && id in TaskIds(m.tasks) + Single(m.id)
    ensures Find(s, id).Some? && Find(s, id).value != sid
  {
    hide TaskIds;
  }

  lemma RegisteredFromTables(s: State, sid: Sid)
    ensures Registered(s, sid) == IdsOf(ProviderTable(s), sid) + IdsOf(TaskTable(s), sid)
  {
    SessionTables(s, sid);
  }

  lemma ChangeRegisters(s: State, s': State, sid: Sid, m: Manifest, c: Change, other: Sid)
    requires Changed(s, s', sid, m, c) && other != sid
    ensures Registered(s', other) == Registered(s, other)
    ensures TaskIds(m.tasks) + Single(m.id) <= Registered(s', sid)
  {
    hide ProviderTable, TaskTable, TaskIds, Single, Registered, DropOwned, Pointing;
    RegisteredFromTables(s, other);
    RegisteredFromTables(s', other);
    RegisteredFromTables(s', sid);
  }

  /** A change keeps the indices complete exactly without a conflict and without dropping a kept task id. */
  lemma ChangeExactly(s: State, s': State, sid: Sid, m: Manifest, c: Change)
    requires Sound(s) && Complete(s) && Sound(s') && Changed(s, s', sid, m, c) && Own(s, sid, m, c)
    ensures Complete(s') <==> Conflicts(s, sid, m) == {} && c.keptTasks * c.goneTasks <= TaskIds(m.tasks)
  {
    hide Sound, Complete, Conflicts, Registered, TaskIds, Single, Find, Changed, Own;
    if Conflicts(s, sid, m) == {} {
      ChangeWithoutConflict(s, s', sid, m, c);
    } else if Complete(s') {
      var id :| id in Conflicts(s, sid, m);
      ConflictIsForeign(s, sid, m, id);
      var other := Find(s, id).value;
      FindIsScan(s, id, other);
      ChangeRegisters(s, s', sid, m, c, other);
      OneOwner(s', id, sid, other);
    }
  }

  // ---------------------------------------------------------------- the sections

  /** The task ids a replaced manifest shares with one that stays, the new manifest brings again. */
  ghost predicate CarriesShared(s: State, sid: Sid, m: Manifest) {
    var ms := Session(s, sid);
    TaskIdsOf(Named(ms, m.id)) * TaskIdsOf(Others(ms, m.id)) <= TaskIds(m.tasks)
  }

  /**
   The check and the insertion of `add_provider` hold the lock separately, and the check
   looks at other sessions only. An insertion keeps the indices complete, with one owner
   per id, exactly when the check would find no conflict at that moment and no task id
   shared inside the session is dropped with the manifest it replaces.
   */
  lemma LateInsertExactly(s: State, sid: Sid, m: Manifest)
    requires Sound(s) && Complete(s)
    ensures Complete(Insert(s, sid, m)) <==> Conflicts(s, sid, m) == {} && CarriesShared(s, sid, m)
  {
    hide Sound, Complete, Insert, Conflicts, Registered, TaskIdsOf, ProviderIdsOf, TaskIds, Single, Named, Others,
         ProviderTable, TaskTable, DropOwned, Pointing, BuildDecoders;
    var ms := Session(s, sid);
    SoundStamped(s, sid);
    InsertClosed(s, sid, m);
    InsertSound(s, sid, m);
    SplitIds(ms, m.id);
    var c := Change(ProviderIdsOf(Named(ms, m.id)), ProviderIdsOf(Others(ms, m.id)),
                    TaskIdsOf(Named(ms, m.id)), TaskIdsOf(Others(ms, m.id)));
    ChangeExactly(s, Insert(s, sid, m), sid, m, c);
  }

  /** With the decoder cache and distinct ids as well, it is the check and `FitsSession`. */
  lemma InsertExactExactly(s: State, sid: Sid, m: Manifest)
    requires Exact(s)
    ensures Exact(Insert(s, sid, m)) <==> Conflicts(s, sid, m) == {} && FitsSession(s, sid, m)
  {
    hide Complete, Insert, Conflicts, CacheExact, Sound, Apart, Disjoint;
    var s', ms := Insert(s, sid, m), Session(s, sid);
    if Conflicts(s, sid, m) == {} && FitsSession(s, sid, m) {
      InsertExact(s, sid, m);
    }
    if Exact(s') {
      LateInsertExactly(s, sid, m);
      SoundStamped(s, sid);
      InsertClosed(s, sid, m);
      assert sid in s'.providers && s'.providers[sid] == Others(ms, m.id) + [m.(sid := sid)];
      assert AllApart(s');
      LastApart(Others(ms, m.id), m.(sid := sid));
    }
  }

  lemma LastApart(ms: seq<Manifest>, m: Manifest)
    requires Apart(ms + [m])
    ensures TaskIds(m.tasks) !! TaskIdsOf(ms)
  {
    forall id | id in TaskIdsOf(ms) ensures id !in TaskIds(m.tasks) {
      var x, t :| x in ms && t in x.tasks && t.id == id;
      var i :| 0 <= i < |ms| && ms[i] == x;
      assert Disjoint((ms + [m])[i], (ms + [m])[|ms|]);
      assert id in TaskIds(x.tasks);
    }
  }

  /** The session's manifests without the one an update replaces. */
  function Rest(ms: seq<Manifest>, i: nat): seq<Manifest>
    requires i < |ms|
  {
    ms[..i] + ms[i + 1..]
  }

  /** An update checks nothing, so it must carry what a checked insertion would. */
  ghost predicate UpdateFits(s: State, sid: Sid, m: Manifest) {
    var ms, i := Session(s, sid), FirstNamed(Session(s, sid), m.id);
    i < |ms| ==> Conflicts(s, sid, m) == {} && TaskIds(ms[i].tasks) * TaskIdsOf(Rest(ms, i)) <= TaskIds(m.tasks)
  }

  lemma RestOwn(s: State, sid: Sid, m: Manifest, i: nat)
    requires i < |Session(s, sid)| && m.id == Session(s, sid)[i].id
    ensures var ms := Session(s, sid);
            Own(s, sid, m, Change(Single(m.id), ProviderIdsOf(Rest(ms, i)),
                                  TaskIds(ms[i].tasks), TaskIdsOf(Rest(ms, i))))
  {
    hide TaskIdsOf, ProviderIdsOf, TaskIds, Single;
    ReplaceAt(Session(s, sid), i, Session(s, sid)[i]);
  }

  lemma UpdateClosed(s: State, sid: Sid, m: Manifest, i: nat)
    requires Sound(s) && i == FirstNamed(Session(s, sid), m.id) < |Session(s, sid)|
    ensures var ms := Session(s, sid);
            var c := Change(Single(m.id), ProviderIdsOf(Rest(ms, i)), TaskIds(ms[i].tasks), TaskIdsOf(Rest(ms, i)));
            Changed(s, Update(s, sid, m), sid, m, c) && Own(s, sid, m, c)
  {
    var ms, stored := Session(s, sid), m.(sid := sid);
    SoundStamped(s, sid);
    assert ms[i] in ms && ms[i].sid == sid && ms[i].id == m.id;
    RestOwn(s, sid, m, i);
    hide Sound, Stamped, Own, FirstNamed, TaskIdsOf, ProviderIdsOf, TaskIds, Single, ProviderTable, TaskTable,
         DropOwned, Pointing;
    ReplaceAt(ms, i, stored);
    TablesReplaced(s, Update(s, sid, m), sid, ms[i := stored]);
  }

  lemma UpdateExactly(s: State, sid: Sid, m: Manifest)
    requires Sound(s) && Complete(s)
    ensures Complete(Update(s, sid, m)) <==> UpdateFits(s, sid, m)
  {
    var ms, i := Session(s, sid), FirstNamed(Session(s, sid), m.id);
    if i < |ms| {
      hide Sound, Complete, Update, Conflicts, TaskIdsOf, ProviderIdsOf, TaskIds, Single, Changed, Own;
      UpdateClosed(s, sid, m, i);
      UpdateSound(s, sid, m);
      var c := Change(Single(m.id), ProviderIdsOf(Rest(ms, i)), TaskIds(ms[i].tasks), TaskIdsOf(Rest(ms, i)));
      ChangeExactly(s, Update(s, sid, m), sid, m, c);
    }
  }

  /**
   Dropping a manifest keeps the indices complete exactly when it shares no task id with a
   manifest that stays in the session.
   */
  lemma PopManifestLosesExactly(s: State, sid: Sid, id: string)
    requires Sound(s) && Complete(s) && sid in s.providers
    ensures var s', ms := PopManifest(s, sid, id), s.providers[sid];
            Complete(s') <==> TaskIdsOf(Others(ms, id)) !! TaskIdsOf(Named(ms, id))
  {
    hide PopManifest, IndexComplete, IndexSound, ProviderTable, TaskTable, TaskIdsOf, ProviderIdsOf;
    var s', ms := PopManifest(s, sid, id), s.providers[sid];
    PopManifestClosed(s, sid, id);
    SplitIds(ms, id);
    SessionTables(s, sid);
    ReplaceComplete(s.providerIndex, ProviderTable(s), sid, ProviderIdsOf(Named(ms, id)),
                    ProviderIdsOf(Others(ms, id)), {});
    ReplaceComplete(s.taskIndex, TaskTable(s), sid, TaskIdsOf(Named(ms, id)), TaskIdsOf(Others(ms, id)), {});
  }

  lemma PopProviderComplete(s: State, sid: Sid)
    requires Sound(s) && Complete(s)
    ensures Complete(PopProvider(s, sid))
  {
    hide PopProvider, IndexComplete, IndexSound, ProviderTable, TaskTable;
    PopProviderExactly(s, sid);
    TablesRemoved(s, PopProvider(s, sid), sid);
    RemoveComplete(s.providerIndex, ProviderTable(s), sid);
    RemoveComplete(s.taskIndex, TaskTable(s), sid);
  }

  // ---------------------------------------------------------------- runs

  /** What each section needs for complete indices, in terms of the manifests at hand. */
  ghost predicate Keeps(s: State, e: Event) {
    match e
    case DoAdd(sid, m) => Accepts(s, sid, m) ==> CarriesShared(s, sid, m)
    case DoInsert(sid, m) => Conflicts(s, sid, m) == {} && CarriesShared(s, sid, m)
    case DoUpdate(sid, m) => UpdateFits(s, sid, m)
    case DoPopManifest(sid, id) =>
      TaskIdsOf(Others(Session(s, sid), id)) !! TaskIdsOf(Named(Session(s, sid), id))
    case DoPopProvider(_) => true
  }

  lemma NextCompleteExactly(s: State, e: Event)
    requires Sound(s) && Complete(s)
    ensures Complete(Next(s, e)) <==> Keeps(s, e)
  {
    hide Sound, Complete, Insert, Update, PopManifest, PopProvider, UpdateFits, CarriesShared, TaskIdsOf, Conflicts;
    match e {
      case DoAdd(sid, m) => LateInsertExactly(s, sid, m);
      case DoInsert(sid, m) => LateInsertExactly(s, sid, m);
      case DoUpdate(sid, m) => UpdateExactly(s, sid, m);
      case DoPopManifest(sid, id) =>
        if sid in s.providers {
          PopManifestLosesExactly(s, sid, id);
        } else {
          NoSession(s, sid, id);
        }
      case DoPopProvider(sid) => PopProviderComplete(s, sid);
    }
  }

  lemma NoSession(s: State, sid: Sid, id: string)
    requires sid !in s.providers
    ensures PopManifest(s, sid, id) == s && TaskIdsOf(Named(Session(s, sid), id)) == {}
  {
  }

  ghost predicate CompleteAlong(s: State, events: seq<Event>)
    decreases |events|
  {
    events == [] || (Complete(Next(s, events[0])) && CompleteAlong(Next(s, events[0]), events[1..]))
  }

  ghost predicate KeepsAlong(s: State, events: seq<Event>)
    decreases |events|
  {
    events == [] || (Keeps(s, events[0]) && KeepsAlong(Next(s, events[0]), events[1..]))
  }

  /**
   On every run, with updates, shared task ids and late insertions: the indices agree with
   a scan after every section exactly when each section meets its condition.
   */
  lemma {:induction false} RunCompleteExactly(s: State, events: seq<Event>)
    requires Sound(s) && Complete(s)
    ensures CompleteAlong(s, events) <==> KeepsAlong(s, events)
    decreases |events|
  {
    hide Sound, Complete, Keeps, Next;
    if events == [] {
    } else {
      NextCompleteExactly(s, events[0]);
      NextSound(s, events[0]);
      if Keeps(s, events[0]) {
        RunCompleteExactly(Next(s, events[0]), events[1..]);
      }
    }
  }

  /**
   A registration that passes the check and still loses an entry: a session holds two
   manifests that share a task, and registers the first again without it.
   */
  lemma SharedTaskIsLost(s: State, sid: Sid, m: Manifest, id: string)
    requires Sound(s) && Complete(s) && Accepts(s, sid, m)
    requires id in TaskIdsOf(Named(Session(s, sid), m.id)) && id in TaskIdsOf(Others(Session(s, sid), m.id))
    requires id !in TaskIds(m.tasks)
    ensures !Complete(Add(s, sid, m))
  {
    hide Complete, Insert, Sound;
    LateInsertExactly(s, sid, m);
  }
}
