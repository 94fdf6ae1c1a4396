/**
 When the indices and the decoder cache of the registry are not merely sound but exact:
 they answer as a scan over all manifests would.
 */
module RegistryExactness {
  import opened Options
  import opened IdIndex
  import opened Registry

  /** Manifests of one session share no id; the code checks this inside one manifest only. */
  ghost predicate Apart(ms: seq<Manifest>) {
    forall i, j :: 0 <= i < j < |ms| ==> Disjoint(ms[i], ms[j])
  }

  ghost predicate Disjoint(a: Manifest, b: Manifest) {
    a.id != b.id && TaskIds(a.tasks) !! TaskIds(b.tasks)
  }

  /** No id belongs to two sessions across the two kinds of id. */
  ghost predicate OneNamespace(s: State) {
    forall id :: id in s.providerIndex && id in s.taskIndex ==> s.providerIndex[id] == s.taskIndex[id]
  }

  function DecodersOf(ms: seq<Manifest>): (d: map<string, Config>)
    ensures d.Keys <= TaskIdsOf(ms)
  {
    if ms == [] then map[]
    else
      assert forall x :: x in ms <==> x == ms[0] || x in ms[1..];
      BuildDecoders(ms[0].tasks) + DecodersOf(ms[1..])
  }

  function DecoderTable(s: State): map<Sid, map<string, Config>> {
    map sid | sid in s.providers :: DecodersOf(s.providers[sid])
  }

  ghost predicate AllApart(s: State) {
    forall sid :: sid in s.providers ==> Apart(s.providers[sid])
  }

  ghost predicate Complete(s: State) {
    && IndexComplete(s.providerIndex, ProviderTable(s))
    && IndexComplete(s.taskIndex, TaskTable(s))
    && OneNamespace(s)
  }

  /**
   Both indices are complete, no id has two owners, and the decoder cache holds exactly the
   decoders built from registered tasks.
   */
  ghost predicate Exact(s: State) {
    && Sound(s) && Complete(s) && AllApart(s)
    && CacheExact(s.decoders, s.taskIndex, DecoderTable(s))
  }

  /** The ids a session registers, of either kind. */
  function Registered(s: State, sid: Sid): set<string> {
    ProviderIds(s, sid) + SessionTaskIds(s, sid)
  }

  // ---------------------------------------------------------------- index against scan

  lemma IndexedExactly(s: State, sid: Sid, id: string)
    requires Sound(s) && Complete(s)
    ensures id in s.providerIndex && s.providerIndex[id] == sid <==> id in ProviderIds(s, sid)
    ensures id in s.taskIndex && s.taskIndex[id] == sid <==> id in SessionTaskIds(s, sid)
    ensures OwnedElsewhere(ProviderTable(s), sid, id) <==> id in s.providerIndex && s.providerIndex[id] != sid
    ensures OwnedElsewhere(TaskTable(s), sid, id) <==> id in s.taskIndex && s.taskIndex[id] != sid
  {
    hide IndexSound, IndexComplete, ProviderTable, TaskTable, OwnedElsewhere;
    LookupIsSearch(s.providerIndex, ProviderTable(s), id, sid);
    LookupIsSearch(s.taskIndex, TaskTable(s), id, sid);
    SessionTables(s, sid);
  }

  /** The id is the manifest's own or that of one of its tasks. */
  ghost predicate Carries(m: Manifest, id: string) {
    m.id == id || exists t :: t in m.tasks && t.id == id
  }

  ghost predicate CarriedBy(ms: seq<Manifest>, id: string) {
    exists m :: m in ms && Carries(m, id)
  }

  lemma RegisteredExactly(s: State, sid: Sid, id: string)
    requires id != ""
    ensures id in Registered(s, sid) <==> sid in s.providers && CarriedBy(s.providers[sid], id)
  {
    var ms := Session(s, sid);
    if id in ProviderIdsOf(ms) {
      var m :| m in ms && m.id != "" && m.id == id;
      assert Carries(m, id);
    }
    if id in TaskIdsOf(ms) {
      var m, t :| m in ms && t in m.tasks && t.id != "" && t.id == id;
      assert Carries(m, id);
    }
    if CarriedBy(ms, id) {
      var m :| m in ms && Carries(m, id);
      if m.id != id {
        var t :| t in m.tasks && t.id == id;
        assert id in TaskIdsOf(ms);
      }
    }
  }

  /**
   The constant-time lookup names a session exactly when a manifest of that session
   carries the id, so at most one session does.
   */
  lemma FindIsScan(s: State, id: string, sid: Sid)
    requires Sound(s) && Complete(s) && id != ""
    ensures Find(s, id) == Some(sid) <==> id in Registered(s, sid)
    ensures Find(s, id) == Some(sid) <==> sid in s.providers && CarriedBy(s.providers[sid], id)
  {
    hide Sound, ProviderIds, SessionTaskIds;
    IndexedExactly(s, sid, id);
    RegisteredExactly(s, sid, id);
  }

  lemma OneOwner(s: State, id: string, a: Sid, b: Sid)
    requires Sound(s) && Complete(s) && id in Registered(s, a) && id in Registered(s, b)
    ensures a == b
  {
    FindIsScan(s, id, a);
    FindIsScan(s, id, b);
  }

  // ---------------------------------------------------------------- lists that stay apart

  lemma ApartTail(ms: seq<Manifest>)
    requires Apart(ms) && ms != []
    ensures Apart(ms[1..])
    ensures forall x :: x in ms[1..] ==> Disjoint(ms[0], x)
  {
    hide Disjoint;
    var rest := ms[1..];
    assert forall i :: 0 <= i < |rest| ==> rest[i] == ms[i + 1];
  }

  lemma ApartCons(m: Manifest, ms: seq<Manifest>)
    requires Apart(ms) && forall x :: x in ms ==> Disjoint(m, x)
    ensures Apart([m] + ms)
  {
    hide Disjoint;
    assert forall i :: 0 <= i < |ms| ==> ms[i] in ms;
  }

  lemma ApartSnoc(ms: seq<Manifest>, m: Manifest)
    requires Apart(ms) && forall x :: x in ms ==> Disjoint(x, m)
    ensures Apart(ms + [m])
  {
    hide Disjoint;
    assert forall i :: 0 <= i < |ms| ==> ms[i] in ms;
  }

  lemma {:induction false} OthersApart(ms: seq<Manifest>, id: string)
    requires Apart(ms)
    ensures Apart(Others(ms, id))
  {
    hide Disjoint, Apart;
    if ms != [] {
      ApartTail(ms);
      OthersApart(ms[1..], id);
      if ms[0].id != id {
        ApartCons(ms[0], Others(ms[1..], id));
      }
    } else {
      EmptyApart();
    }
  }

  lemma EmptyApart()
    ensures Apart([])
  {
  }

  lemma {:induction false} NamedApart(ms: seq<Manifest>, id: string)
    requires Apart(ms)
    ensures forall a, b :: a in Named(ms, id) && b in Others(ms, id) ==> Disjoint(a, b)
  {
    hide Disjoint, Apart;
    if ms == [] {
    } else {
      ApartTail(ms);
      NamedApart(ms[1..], id);
      forall a, b | a in Named(ms, id) && b in Others(ms, id) ensures Disjoint(a, b) {
        if a != ms[0] && b == ms[0] {
          DisjointSymmetric(b, a);
        }
      }
    }
  }

  lemma DisjointSymmetric(a: Manifest, b: Manifest)
    requires Disjoint(a, b)
    ensures Disjoint(b, a)
  {
  }

  lemma NamedIdsApart(ms: seq<Manifest>, id: string)
    requires Apart(ms)
    ensures TaskIdsOf(Named(ms, id)) !! TaskIdsOf(Others(ms, id))
  {
    hide Apart, Named, Others;
    NamedApart(ms, id);
    var named, others := Named(ms, id), Others(ms, id);
    forall x | x in TaskIdsOf(named) ensures x !in TaskIdsOf(others) {
      var a, t :| a in named && t in a.tasks && t.id == x;
      forall b | b in others ensures x !in TaskIds(b.tasks) {
        assert Disjoint(a, b) && x in TaskIds(a.tasks);
      }
    }
  }

  lemma DecodersCons(m: Manifest, ms: seq<Manifest>)
    ensures DecodersOf([m] + ms) == BuildDecoders(m.tasks) + DecodersOf(ms)
  {
    assert ([m] + ms)[1..] == ms;
  }

  lemma MergeAssociative<V>(a: map<string, V>, b: map<string, V>, c: map<string, V>)
    ensures (a + b) + c == a + (b + c)
  {
  }

  lemma {:induction false} DecodersSnoc(ms: seq<Manifest>, m: Manifest)
    ensures DecodersOf(ms + [m]) == DecodersOf(ms) + BuildDecoders(m.tasks)
  {
    NoDecoders();
    hide BuildDecoders, TaskIdsOf, DecodersOf;
    if ms == [] {
      DecodersCons(m, []);
      assert [m] + [] == [m] == ms + [m];
    } else {
      var head, rest := ms[0], ms[1..];
      assert ms == [head] + rest && ms + [m] == [head] + (rest + [m]);
      DecodersCons(head, rest);
      DecodersCons(head, rest + [m]);
      DecodersSnoc(rest, m);
      MergeAssociative(BuildDecoders(head.tasks), DecodersOf(rest), BuildDecoders(m.tasks));
    }
  }

  lemma TaskIdsCons(m: Manifest, ms: seq<Manifest>)
    ensures TaskIdsOf([m] + ms) == TaskIds(m.tasks) + TaskIdsOf(ms)
  {
    assert forall x :: x in [m] + ms <==> x == m || x in ms;
  }

  lemma {:induction false} DecodersOthers(ms: seq<Manifest>, id: string)
    requires Apart(ms)
    ensures DecodersOf(Others(ms, id)) == DecodersOf(ms) - TaskIdsOf(Named(ms, id))
  {
    hide BuildDecoders, TaskIdsOf, TaskIds, Apart, Disjoint;
    if ms == [] {
      assert DecodersOf([]) == map[];
    } else {
      var m, rest := ms[0], ms[1..];
      ApartTail(ms);
      DecodersOthers(rest, id);
      HeadApart(m, rest);
      if m.id == id {
        TaskIdsCons(m, Named(rest, id));
      } else {
        assert ([m] + Others(rest, id))[1..] == Others(rest, id);
        SplitIds(rest, id);
      }
    }
  }

  lemma HeadApart(m: Manifest, rest: seq<Manifest>)
    requires forall x :: x in rest ==> Disjoint(m, x)
    ensures TaskIds(m.tasks) !! TaskIdsOf(rest)
  {
    forall id | id in TaskIdsOf(rest) ensures id !in TaskIds(m.tasks) {
      var x, t :| x in rest && t in x.tasks && t.id == id;
      assert Disjoint(m, x) && id in TaskIds(x.tasks);
    }
  }

  /** Some manifest's last working task of this id has the configuration `c`. */
  ghost predicate DecodedBy(ms: seq<Manifest>, id: string, c: Config) {
    exists m :: m in ms && LastDecodes(m.tasks, id, c)
  }

  lemma {:induction false} DecodersOfExactly(ms: seq<Manifest>, id: string, c: Config)
    requires Apart(ms)
    ensures id in DecodersOf(ms) && DecodersOf(ms)[id] == c <==> DecodedBy(ms, id, c)
  {
    if ms == [] {
    } else {
      var m, rest := ms[0], ms[1..];
      assert ms == [m] + rest;
      ApartTail(ms);
      HeadApart(m, rest);
      DecodersOfExactly(rest, id, c);
      DecodersCons(m, rest);
      BuildsExactly(m.tasks, id, c);
      DecodedCons(m, rest, id, c);
      hide BuildDecoders, LastDecodes, DecodersOf, Apart, DecodedBy, TaskIdsOf, TaskIds;
    }
  }

  lemma DecodedCons(m: Manifest, rest: seq<Manifest>, id: string, c: Config)
    ensures DecodedBy([m] + rest, id, c) <==> LastDecodes(m.tasks, id, c) || DecodedBy(rest, id, c)
  {
    hide LastDecodes;
    assert forall x :: x in [m] + rest <==> x == m || x in rest;
  }

  /** The cache read off the manifests themselves: a decoder for each working task of a session, no other. */
  lemma CacheIsTheTasks(s: State, id: string, c: Config)
    requires Exact(s)
    ensures id in s.decoders && s.decoders[id] == c <==>
              exists sid :: sid in s.providers && DecodedBy(s.providers[sid], id, c)
  {
    hide DecodersOf, DecodedBy, Apart, Complete, Sound;
    if sid: Sid :| sid in s.providers && DecodedBy(s.providers[sid], id, c) {
      DecodersOfExactly(s.providers[sid], id, c);
      assert sid in DecoderTable(s) && id in DecoderTable(s)[sid];
    }
    if id in s.decoders && s.decoders[id] == c {
      var sid := s.taskIndex[id];
      assert sid in DecoderTable(s) && id in DecoderTable(s)[sid];
      DecodersOfExactly(s.providers[sid], id, c);
    }
  }

  lemma DecoderTableReplaced(s: State, s': State, sid: Sid, ms: seq<Manifest>)
    requires s'.providers == s.providers[sid := ms]
    ensures DecoderTable(s') == DecoderTable(s)[sid := DecodersOf(ms)]
    ensures (if sid in DecoderTable(s) then DecoderTable(s)[sid] else map[]) == DecodersOf(Session(s, sid))
  {
    NoDecoders();
    hide DecodersOf, TaskIdsOf;
  }

  lemma NoDecoders()
    ensures DecodersOf([]) == map[]
  {
  }

  // ---------------------------------------------------------------- preservation

  /** No id the manifest brings is registered by another session. */
  lemma NoConflictMeansFree(s: State, sid: Sid, m: Manifest)
    requires OneNamespace(s) && Conflicts(s, sid, m) == {}
    ensures forall id :: id in TaskIds(m.tasks) + Single(m.id) ==>
              && (id in s.providerIndex ==> s.providerIndex[id] == sid)
              && (id in s.taskIndex ==> s.taskIndex[id] == sid)
  {
    forall id | id in TaskIds(m.tasks) + Single(m.id)
      ensures (id in s.providerIndex ==> s.providerIndex[id] == sid) && (id in s.taskIndex ==> s.taskIndex[id] == sid)
    {
      assert id in TaskIds(m.tasks) + ProviderIdsOf([m]);
      assert id !in Conflicts(s, sid, m);
    }
  }

  /** The session's other manifests bring none of the new task ids. */
  ghost predicate FitsSession(s: State, sid: Sid, m: Manifest) {
    TaskIds(m.tasks) !! TaskIdsOf(Others(Session(s, sid), m.id))
  }

  lemma FreeNotElsewhere(s: State, sid: Sid, m: Manifest)
    requires Sound(s) && Complete(s) && Conflicts(s, sid, m) == {}
    ensures forall id :: id in TaskIds(m.tasks) + Single(m.id) ==>
              !OwnedElsewhere(ProviderTable(s), sid, id) && !OwnedElsewhere(TaskTable(s), sid, id)
  {
    hide Sound, Complete, OwnedElsewhere, Conflicts, TaskIds, Single;
    forall id | id in TaskIds(m.tasks) + Single(m.id)
      ensures !OwnedElsewhere(ProviderTable(s), sid, id) && !OwnedElsewhere(TaskTable(s), sid, id)
    {
      assert OneNamespace(s) by { CompleteNamespace(s); }
      NoConflictMeansFree(s, sid, m);
      IndexedExactly(s, sid, id);
    }
  }

  lemma CompleteNamespace(s: State)
    requires Complete(s)
    ensures OneNamespace(s)
  {
  }

  lemma InsertComplete(s: State, sid: Sid, m: Manifest)
    requires Sound(s) && Complete(s) && AllApart(s) && Conflicts(s, sid, m) == {}
    ensures Complete(Insert(s, sid, m))
  {
    hide Insert, IndexComplete, IndexSound, OwnedElsewhere, ProviderTable, TaskTable, TaskIdsOf, ProviderIdsOf,
         Apart, Conflicts;
    var s', ms := Insert(s, sid, m), Session(s, sid);
    EmptyApart();
    assert Apart(ms);
    InsertClosed(s, sid, m);
    SplitIds(ms, m.id);
    SessionTables(s, sid);
    FreeNotElsewhere(s, sid, m);
    NamedIdsApart(ms, m.id);
    NoConflictMeansFree(s, sid, m);
    ReplaceComplete(s.providerIndex, ProviderTable(s), sid, ProviderIdsOf(Named(ms, m.id)),
                    ProviderIdsOf(Others(ms, m.id)), Single(m.id));
    ReplaceComplete(s.taskIndex, TaskTable(s), sid, TaskIdsOf(Named(ms, m.id)), TaskIdsOf(Others(ms, m.id)),
                    TaskIds(m.tasks));
  }

  lemma InsertApart(s: State, sid: Sid, m: Manifest)
    requires AllApart(s) && FitsSession(s, sid, m)
    ensures Apart(Others(Session(s, sid), m.id) + [m.(sid := sid)])
  {
    hide Apart;
    var ms := Session(s, sid);
    EmptyApart();
    OthersApart(ms, m.id);
    forall x | x in Others(ms, m.id) ensures Disjoint(x, m.(sid := sid)) {
      assert TaskIds(x.tasks) <= TaskIdsOf(Others(ms, m.id));
    }
    ApartSnoc(Others(ms, m.id), m.(sid := sid));
  }

  /** What the cache step needs of the ids involved. */
  lemma GoneBelongs(s: State, sid: Sid, gone: set<string>)
    requires Sound(s) && Complete(s) && gone <= SessionTaskIds(s, sid)
    ensures forall id :: id in gone ==> id in s.taskIndex && s.taskIndex[id] == sid
  {
    hide Sound, Complete, SessionTaskIds;
    forall id | id in gone ensures id in s.taskIndex && s.taskIndex[id] == sid {
      IndexedExactly(s, sid, id);
    }
  }

  lemma InsertCache(s: State, sid: Sid, m: Manifest)
    requires Exact(s) && FitsSession(s, sid, m) && Conflicts(s, sid, m) == {}
    ensures var s' := Insert(s, sid, m); CacheExact(s'.decoders, s'.taskIndex, DecoderTable(s'))
  {
    hide Insert, Sound, CacheExact, ProviderTable, TaskTable, DecoderTable, TaskIdsOf, ProviderIdsOf, BuildDecoders,
         DecodersOf, Apart, IndexComplete, Conflicts, Others, Named, DropOwned, Pointing;
    var s', ms, stored := Insert(s, sid, m), Session(s, sid), m.(sid := sid);
    EmptyApart();
    SoundStamped(s, sid);
    InsertClosed(s, sid, m);
    SplitIds(ms, m.id);
    DecodersOthers(ms, m.id);
    DecodersSnoc(Others(ms, m.id), stored);
    DecoderTableReplaced(s, s', sid, Others(ms, m.id) + [stored]);
    GoneBelongs(s, sid, TaskIdsOf(Named(ms, m.id)));
    NoConflictMeansFree(s, sid, m);
    CacheReplace(s.decoders, s.taskIndex, DecoderTable(s), sid, TaskIdsOf(Named(ms, m.id)),
                 DecodersOf(Others(ms, m.id)), TaskIds(m.tasks), BuildDecoders(m.tasks));
  }

  lemma InsertExact(s: State, sid: Sid, m: Manifest)
    requires Exact(s) && FitsSession(s, sid, m) && Conflicts(s, sid, m) == {}
    ensures Exact(Insert(s, sid, m))
  {
    hide Insert, Sound, Complete, CacheExact, Apart, Conflicts;
    InsertSound(s, sid, m);
    InsertComplete(s, sid, m);
    InsertApart(s, sid, m);
    InsertCache(s, sid, m);
    assert Stamped(Session(s, sid), sid) by { SoundStamped(s, sid); }
    InsertClosed(s, sid, m);
  }

  lemma SoundStamped(s: State, sid: Sid)
    requires Sound(s)
    ensures Stamped(Session(s, sid), sid)
  {
  }

  lemma PopManifestComplete(s: State, sid: Sid, id: string)
    requires Sound(s) && Complete(s) && AllApart(s) && sid in s.providers
    ensures Complete(PopManifest(s, sid, id))
  {
    hide PopManifest, IndexComplete, IndexSound, ProviderTable, TaskTable, TaskIdsOf, ProviderIdsOf, Apart;
    var ms := Session(s, sid);
    PopManifestClosed(s, sid, id);
    SplitIds(ms, id);
    SessionTables(s, sid);
    NamedIdsApart(ms, id);
    ReplaceComplete(s.providerIndex, ProviderTable(s), sid, ProviderIdsOf(Named(ms, id)),
                    ProviderIdsOf(Others(ms, id)), {});
    ReplaceComplete(s.taskIndex, TaskTable(s), sid, TaskIdsOf(Named(ms, id)), TaskIdsOf(Others(ms, id)), {});
  }

  lemma PopManifestCache(s: State, sid: Sid, id: string)
    requires Exact(s) && sid in s.providers
    ensures var s' := PopManifest(s, sid, id); CacheExact(s'.decoders, s'.taskIndex, DecoderTable(s'))
  {
    hide PopManifest, Sound, Complete, CacheExact, ProviderTable, TaskTable, DecoderTable, TaskIdsOf, ProviderIdsOf,
         DecodersOf, Apart, Others, Named, DropOwned, Pointing;
    var s', ms := PopManifest(s, sid, id), Session(s, sid);
    var gone, kept := TaskIdsOf(Named(ms, id)), DecodersOf(Others(ms, id));
    SoundStamped(s, sid);
    PopManifestClosed(s, sid, id);
    SplitIds(ms, id);
    DecodersOthers(ms, id);
    DecoderTableReplaced(s, s', sid, Others(ms, id));
    GoneBelongs(s, sid, gone);
    CacheDrop(s.decoders, s.taskIndex, DecoderTable(s), sid, gone, kept);
  }

  lemma PopManifestExact(s: State, sid: Sid, id: string)
    requires Exact(s)
    ensures Exact(PopManifest(s, sid, id))
  {
    if sid in s.providers {
      hide PopManifest, Sound, Complete, CacheExact, Apart;
      PopManifestSound(s, sid, id);
      PopManifestComplete(s, sid, id);
      PopManifestCache(s, sid, id);
      SoundStamped(s, sid);
      PopManifestClosed(s, sid, id);
      OthersApart(s.providers[sid], id);
    }
  }

  lemma PopProviderExact(s: State, sid: Sid)
    requires Exact(s)
    ensures Exact(PopProvider(s, sid))
  {
    hide PopProvider, CacheExact, IndexSound, IndexComplete, ProviderTable, TaskTable, ProviderIdsOf, TaskIdsOf,
         BuildDecoders, Apart;
    var s' := PopProvider(s, sid);
    PopProviderSound(s, sid);
    PopProviderExactly(s, sid);
    TablesRemoved(s, s', sid);
    RemoveComplete(s.providerIndex, ProviderTable(s), sid);
    RemoveComplete(s.taskIndex, TaskTable(s), sid);
    GoneBelongs(s, sid, SessionTaskIds(s, sid));
    assert DecoderTable(s') == DecoderTable(s) - {sid};
    CacheRemove(s.decoders, s.taskIndex, DecoderTable(s), sid, SessionTaskIds(s, sid));
  }

  /** A step of a run without manifest updates and with each registration checked at its insertion. */
  ghost predicate Orderly(s: State, e: Event) {
    match e
    case DoAdd(sid, m) => FitsSession(s, sid, m)
    case DoInsert(sid, m) => FitsSession(s, sid, m) && Conflicts(s, sid, m) == {}
    case DoUpdate(_, _) => false
    case DoPopManifest(_, _) => true
    case DoPopProvider(_) => true
  }

  ghost predicate OrderlyRun(s: State, events: seq<Event>)
    decreases |events|
  {
    events == [] || (Orderly(s, events[0]) && OrderlyRun(Next(s, events[0]), events[1..]))
  }

  lemma NextExact(s: State, e: Event)
    requires Exact(s) && Orderly(s, e)
    ensures Exact(Next(s, e))
  {
    hide Exact, Insert, PopManifest, PopProvider;
    match e {
      case DoAdd(sid, m) =>
        if Accepts(s, sid, m) {
          InsertExact(s, sid, m);
        }
      case DoInsert(sid, m) => InsertExact(s, sid, m);
      case DoUpdate(_, _) =>
      case DoPopManifest(sid, id) => PopManifestExact(s, sid, id);
      case DoPopProvider(sid) => PopProviderExact(s, sid);
    }
  }

  lemma {:induction false} RunExactFrom(s: State, events: seq<Event>)
    requires Exact(s) && OrderlyRun(s, events)
    ensures Exact(Run(s, events))
    decreases |events|
  {
    hide Exact, Orderly, Next;
    if events == [] {
    } else {
      NextExact(s, events[0]);
      RunExactFrom(Next(s, events[0]), events[1..]);
    }
  }

  /** On every orderly run from the empty registry the indices and the cache are exact. */
  lemma RunExact(events: seq<Event>)
    requires OrderlyRun(EMPTY, events)
    ensures Exact(Run(EMPTY, events))
  {
    EmptyExact();
    RunExactFrom(EMPTY, events);
  }

  lemma EmptyExact()
    ensures Exact(EMPTY)
  {
  }
}
