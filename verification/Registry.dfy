/**
 The provider registry: manifests per session, the two lookup indices and the decoder
 cache derived from them. `State` is the registry's data, the functions below are its
 locked sections; the class at the end updates the dictionaries in place.
 */
module Registry {
  import opened Options
  import opened IdIndex

  datatype Config = Config(kind: string, parameters: int, faulty: bool)

  datatype Task = Task(id: string, decoder: Option<Config>, group: string)

  /** An empty id stands for a missing one. */
  datatype Manifest = Manifest(id: string, sid: string, tasks: seq<Task>)

  datatype State = State(
    providers: map<Sid, seq<Manifest>>,
    decoders: map<string, Config>,
    providerIndex: Index,
    taskIndex: Index)

  const EMPTY := State(map[], map[], map[], map[])

  // ---------------------------------------------------------------- ids of manifests

  function TaskIds(tasks: seq<Task>): (ids: set<string>)
    ensures "" !in ids
  {
    set t | t in tasks && t.id != "" :: t.id
  }

  /** A missing id registers nothing. */
  function Single(id: string): (ids: set<string>)
    ensures "" !in ids
  {
    if id == "" then {} else {id}
  }

  function ProviderIdsOf(ms: seq<Manifest>): (ids: set<string>)
    ensures "" !in ids
  {
    set m | m in ms && m.id != "" :: m.id
  }

  function TaskIdsOf(ms: seq<Manifest>): (ids: set<string>)
    ensures "" !in ids
  {
    set m, t | m in ms && t in m.tasks && t.id != "" :: t.id
  }

  function Session(s: State, sid: Sid): seq<Manifest> {
    if sid in s.providers then s.providers[sid] else []
  }

  function ProviderIds(s: State, sid: Sid): set<string> {
    ProviderIdsOf(Session(s, sid))
  }

  function SessionTaskIds(s: State, sid: Sid): set<string> {
    TaskIdsOf(Session(s, sid))
  }

  function Named(ms: seq<Manifest>, id: string): (r: seq<Manifest>)
    ensures forall m :: m in r <==> m in ms && m.id == id
  {
    if ms == [] then []
    else if ms[0].id == id then [ms[0]] + Named(ms[1..], id)
    else Named(ms[1..], id)
  }

  function Others(ms: seq<Manifest>, id: string): (r: seq<Manifest>)
    ensures forall m :: m in r <==> m in ms && m.id != id
  {
    if ms == [] then []
    else if ms[0].id != id then [ms[0]] + Others(ms[1..], id)
    else Others(ms[1..], id)
  }

  // ---------------------------------------------------------------- locked sections

  function IndexManifest(s: State, sid: Sid, m: Manifest): State {
    s.(providerIndex := s.providerIndex + Pointing(Single(m.id), sid),
       taskIndex := s.taskIndex + Pointing(TaskIds(m.tasks), sid))
  }

  function UnindexManifest(s: State, m: Manifest): State {
    s.(providerIndex := DropOwned(s.providerIndex, Single(m.id), m.sid),
       taskIndex := DropOwned(s.taskIndex, TaskIds(m.tasks), m.sid))
  }

  function Forget(s: State, m: Manifest): State {
    var u := UnindexManifest(s, m);
    u.(decoders := u.decoders - TaskIds(m.tasks))
  }

  function ForgetAll(s: State, ms: seq<Manifest>): State
    decreases |ms|
  {
    if ms == [] then s else ForgetAll(Forget(s, ms[0]), ms[1..])
  }

  /** A decoder is built for a task with a known, working configuration. */
  predicate Builds(t: Task) {
    t.id != "" && t.decoder.Some? && t.decoder.value.kind == "generic_binary" && !t.decoder.value.faulty
  }

  function BuildDecoders(tasks: seq<Task>): (d: map<string, Config>)
    ensures d.Keys <= TaskIds(tasks)
  {
    if tasks == [] then map[]
    else
      var last := tasks[|tasks| - 1];
      var d := BuildDecoders(tasks[..|tasks| - 1]);
      if Builds(last) then d[last.id := last.decoder.value] else d
  }

  /** The task has this id and a working configuration of a known kind. */
  ghost predicate Decodes(t: Task, id: string, c: Config) {
    t.id == id && id != "" && t.decoder == Some(c) && c.kind == "generic_binary" && !c.faulty
  }

  /** From position `i` on no task with this id has one. */
  ghost predicate NoneDecodes(tasks: seq<Task>, i: nat, id: string) {
    forall j, c :: i <= j < |tasks| ==> !Decodes(tasks[j], id, c)
  }

  /** `c` is the configuration of the last task with this id that has a working one. */
  ghost predicate LastDecodes(tasks: seq<Task>, id: string, c: Config) {
    exists i :: 0 <= i < |tasks| && Decodes(tasks[i], id, c) && NoneDecodes(tasks, i + 1, id)
  }

  lemma NoneDecodesSnoc(tasks: seq<Task>, t: Task, i: nat, id: string)
    requires i <= |tasks|
    ensures NoneDecodes(tasks + [t], i, id) <==> NoneDecodes(tasks, i, id) && forall c :: !Decodes(t, id, c)
  {
    hide Decodes;
    var all := tasks + [t];
    assert all[|tasks|] == t && forall j :: 0 <= j < |tasks| ==> all[j] == tasks[j];
  }

  lemma LastDecodesSnoc(tasks: seq<Task>, t: Task, id: string, c: Config)
    ensures LastDecodes(tasks + [t], id, c) <==>
              Decodes(t, id, c) || (LastDecodes(tasks, id, c) && forall c' :: !Decodes(t, id, c'))
  {
    hide NoneDecodes, Decodes;
    var all := tasks + [t];
    assert all[|tasks|] == t && forall j :: 0 <= j < |tasks| ==> all[j] == tasks[j];
    if Decodes(t, id, c) {
      NothingAfter(all, id);
    }
    if LastDecodes(tasks, id, c) && forall c' :: !Decodes(t, id, c') {
      var i :| 0 <= i < |tasks| && Decodes(tasks[i], id, c) && NoneDecodes(tasks, i + 1, id);
      NoneDecodesSnoc(tasks, t, i + 1, id);
      assert Decodes(all[i], id, c);
    }
    if LastDecodes(all, id, c) {
      var i :| 0 <= i < |all| && Decodes(all[i], id, c) && NoneDecodes(all, i + 1, id);
      if i < |tasks| {
        NoneDecodesSnoc(tasks, t, i + 1, id);
        assert Decodes(tasks[i], id, c);
      }
    }
  }

  lemma NothingAfter(tasks: seq<Task>, id: string)
    ensures NoneDecodes(tasks, |tasks|, id)
  {
  }

  /** Exactly the tasks with a working configuration get a decoder, and the last one of an id wins. */
  lemma {:induction false} BuildsExactly(tasks: seq<Task>, id: string, c: Config)
    ensures id in BuildDecoders(tasks) && BuildDecoders(tasks)[id] == c <==> LastDecodes(tasks, id, c)
  {
    if tasks == [] {
    } else {
      var before, t := tasks[..|tasks| - 1], tasks[|tasks| - 1];
      assert tasks == before + [t];
      BuildsExactly(before, id, c);
      LastDecodesSnoc(before, t, id, c);
      hide LastDecodes;
      assert t.id == id && Builds(t) <==> exists c' :: Decodes(t, id, c') by {
        if t.id == id && Builds(t) {
          assert Decodes(t, id, t.decoder.value);
        }
      }
    }
  }

  function IndexedOwner(s: State, id: string): Option<Sid> {
    if id in s.providerIndex then Some(s.providerIndex[id])
    else if id in s.taskIndex then Some(s.taskIndex[id])
    else None
  }

  /** `find_provider_sid`. */
  function Find(s: State, id: string): Option<Sid> {
    if id == "" then None else IndexedOwner(s, id)
  }

  function Conflicts(s: State, sid: Sid, m: Manifest): set<string> {
    set id |
      && id in TaskIds(m.tasks) + ProviderIdsOf([m])
      && IndexedOwner(s, id).Some? && IndexedOwner(s, id).value != sid
  }

  predicate DistinctIds(tasks: seq<Task>) {
    forall i, j :: 0 <= i < j < |tasks| && tasks[i].id != "" ==> tasks[i].id != tasks[j].id
  }

  /** The locked part of `add_provider`. */
  function Insert(s: State, sid: Sid, m: Manifest): State {
    var present := Session(s, sid);
    var f := ForgetAll(s, Named(present, m.id));
    var stored := m.(sid := sid);
    var p := f.(providers := f.providers[sid := Others(present, m.id) + [stored]]);
    var i := IndexManifest(p, sid, stored);
    i.(decoders := i.decoders + BuildDecoders(m.tasks))
  }

  predicate Accepts(s: State, sid: Sid, m: Manifest) {
    DistinctIds(m.tasks) && Conflicts(s, sid, m) == {}
  }

  /** `add_provider` without another registration between its check and its insertion. */
  function Add(s: State, sid: Sid, m: Manifest): State {
    if Accepts(s, sid, m) then Insert(s, sid, m) else s
  }

  function PopProvider(s: State, sid: Sid): State {
    ForgetAll(s, Session(s, sid)).(providers := s.providers - {sid})
  }

  function PopManifest(s: State, sid: Sid, id: string): State {
    if sid !in s.providers then s
    else
      ForgetAll(s, Named(s.providers[sid], id)).(providers := s.providers[sid := Others(s.providers[sid], id)])
  }

  function FirstNamed(ms: seq<Manifest>, id: string): (i: nat)
    ensures i <= |ms|
    ensures i < |ms| ==> ms[i].id == id
    ensures forall k :: 0 <= k < i ==> ms[k].id != id
  {
    if ms == [] then 0 else if ms[0].id == id then 0 else 1 + FirstNamed(ms[1..], id)
  }

  /** `update_provider_manifest`: no conflict check, and the decoder cache stays as it is. */
  function Update(s: State, sid: Sid, m: Manifest): State {
    var ms := Session(s, sid);
    var i := FirstNamed(ms, m.id);
    if i == |ms| then s
    else
      var stored := m.(sid := sid);
      var u := IndexManifest(UnindexManifest(s, ms[i]), sid, stored);
      u.(providers := s.providers[sid := ms[i := stored]])
  }

  datatype Event =
    | DoAdd(sid: Sid, manifest: Manifest)
    | DoInsert(sid: Sid, manifest: Manifest)
    | DoUpdate(sid: Sid, manifest: Manifest)
    | DoPopManifest(sid: Sid, id: string)
    | DoPopProvider(sid: Sid)

  function Next(s: State, e: Event): State {
    match e
    case DoAdd(sid, m) => Add(s, sid, m)
    case DoInsert(sid, m) => Insert(s, sid, m)
    case DoUpdate(sid, m) => Update(s, sid, m)
    case DoPopManifest(sid, id) => PopManifest(s, sid, id)
    case DoPopProvider(sid) => PopProvider(s, sid)
  }

  function Run(s: State, events: seq<Event>): State
    decreases |events|
  {
    if events == [] then s else Run(Next(s, events[0]), events[1..])
  }

  // ---------------------------------------------------------------- closed forms

  ghost predicate Stamped(ms: seq<Manifest>, sid: string) {
    forall m :: m in ms ==> m.sid == sid
  }

  /** Forgetting manifests of one session, all at once. */
  lemma {:induction false} ForgetAllClosed(s: State, ms: seq<Manifest>, sid: string)
    requires Stamped(ms, sid)
    ensures var f := ForgetAll(s, ms);
            && f.providers == s.providers
            && f.providerIndex == DropOwned(s.providerIndex, ProviderIdsOf(ms), sid)
            && f.taskIndex == DropOwned(s.taskIndex, TaskIdsOf(ms), sid)
            && f.decoders == s.decoders - TaskIdsOf(ms)
    decreases |ms|
  {
    if ms == [] {
      DropTwice(s.providerIndex, {}, {}, sid);
      DropTwice(s.taskIndex, {}, {}, sid);
    } else {
      hide DropOwned;
      var m, rest := ms[0], ms[1..];
      assert forall x :: x in ms <==> x == m || x in rest;
      ForgetAllClosed(Forget(s, m), rest, sid);
      assert TaskIdsOf(ms) == TaskIds(m.tasks) + TaskIdsOf(rest);
      assert ProviderIdsOf(ms) == Single(m.id) + ProviderIdsOf(rest);
      DropTwice(s.providerIndex, Single(m.id), ProviderIdsOf(rest), sid);
      DropTwice(s.taskIndex, TaskIds(m.tasks), TaskIdsOf(rest), sid);
    }
  }

  lemma SplitIds(ms: seq<Manifest>, id: string)
    ensures ProviderIdsOf(Named(ms, id)) + ProviderIdsOf(Others(ms, id)) == ProviderIdsOf(ms)
    ensures TaskIdsOf(Named(ms, id)) + TaskIdsOf(Others(ms, id)) == TaskIdsOf(ms)
    ensures ProviderIdsOf(Named(ms, id)) <= {id}
    ensures ProviderIdsOf(Others(ms, id)) !! {id}
  {
  }

  lemma AppendIds(ms: seq<Manifest>, m: Manifest)
    ensures ProviderIdsOf(ms + [m]) == ProviderIdsOf(ms) + Single(m.id)
    ensures TaskIdsOf(ms + [m]) == TaskIdsOf(ms) + TaskIds(m.tasks)
  {
  }

  function ProviderTable(s: State): Table {
    map sid | sid in s.providers :: ProviderIdsOf(s.providers[sid])
  }

  function TaskTable(s: State): Table {
    map sid | sid in s.providers :: TaskIdsOf(s.providers[sid])
  }

  lemma TablesReplaced(s: State, s': State, sid: Sid, ms: seq<Manifest>)
    requires s'.providers == s.providers[sid := ms]
    ensures ProviderTable(s') == ProviderTable(s)[sid := ProviderIdsOf(ms)]
    ensures TaskTable(s') == TaskTable(s)[sid := TaskIdsOf(ms)]
  {
  }

  lemma TablesRemoved(s: State, s': State, sid: Sid)
    requires s'.providers == s.providers - {sid}
    ensures ProviderTable(s') == ProviderTable(s) - {sid}
    ensures TaskTable(s') == TaskTable(s) - {sid}
  {
  }

  /** The session list and tables of an insertion, without the loop. */
  lemma InsertClosed(s: State, sid: Sid, m: Manifest)
    requires Stamped(Session(s, sid), sid)
    ensures var s', ms := Insert(s, sid, m), Session(s, sid);
            && s'.providers == s.providers[sid := Others(ms, m.id) + [m.(sid := sid)]]
            && s'.providerIndex == DropOwned(s.providerIndex, ProviderIdsOf(Named(ms, m.id)), sid)
               + Pointing(Single(m.id), sid)
            && s'.taskIndex == DropOwned(s.taskIndex, TaskIdsOf(Named(ms, m.id)), sid) + Pointing(TaskIds(m.tasks), sid)
            && s'.decoders == (s.decoders - TaskIdsOf(Named(ms, m.id))) + BuildDecoders(m.tasks)
            && ProviderTable(s') == ProviderTable(s)[sid := ProviderIdsOf(Others(ms, m.id)) + Single(m.id)]
            && TaskTable(s') == TaskTable(s)[sid := TaskIdsOf(Others(ms, m.id)) + TaskIds(m.tasks)]
  {
    hide DropOwned, Pointing, ProviderTable, TaskTable, ProviderIdsOf, TaskIdsOf, TaskIds, Single, BuildDecoders,
         Named, Others, ForgetAll;
    var s', ms := Insert(s, sid, m), Session(s, sid);
    ForgetAllClosed(s, Named(ms, m.id), sid);
    AppendIds(Others(ms, m.id), m.(sid := sid));
    TablesReplaced(s, s', sid, Others(ms, m.id) + [m.(sid := sid)]);
  }

  lemma PointingNothing(index: Index, sid: Sid)
    ensures index + Pointing({}, sid) == index
  {
  }

  lemma PopManifestClosed(s: State, sid: Sid, id: string)
    requires Stamped(Session(s, sid), sid) && sid in s.providers
    ensures var s', ms := PopManifest(s, sid, id), Session(s, sid);
            && s'.providers == s.providers[sid := Others(ms, id)]
            && s'.providerIndex == DropOwned(s.providerIndex, ProviderIdsOf(Named(ms, id)), sid) + Pointing({}, sid)
            && s'.taskIndex == DropOwned(s.taskIndex, TaskIdsOf(Named(ms, id)), sid) + Pointing({}, sid)
            && s'.decoders == s.decoders - TaskIdsOf(Named(ms, id))
            && ProviderTable(s') == ProviderTable(s)[sid := ProviderIdsOf(Others(ms, id)) + {}]
            && TaskTable(s') == TaskTable(s)[sid := TaskIdsOf(Others(ms, id)) + {}]
  {
    hide DropOwned, Pointing, ProviderTable, TaskTable, ProviderIdsOf, TaskIdsOf, Named, Others, ForgetAll;
    var s', ms := PopManifest(s, sid, id), Session(s, sid);
    ForgetAllClosed(s, Named(ms, id), sid);
    PointingNothing(s'.providerIndex, sid);
    PointingNothing(s'.taskIndex, sid);
    assert ProviderIdsOf(Others(ms, id)) + {} == ProviderIdsOf(Others(ms, id));
    assert TaskIdsOf(Others(ms, id)) + {} == TaskIdsOf(Others(ms, id));
    TablesReplaced(s, s', sid, Others(ms, id));
  }

  // ---------------------------------------------------------------- soundness

  /** Every manifest knows its session, and every index entry points at a session that registers the id. */
  ghost predicate Sound(s: State) {
    && (forall sid :: sid in s.providers ==> Stamped(s.providers[sid], sid))
    && IndexSound(s.providerIndex, ProviderTable(s))
    && IndexSound(s.taskIndex, TaskTable(s))
  }

  lemma InsertSound(s: State, sid: Sid, m: Manifest)
    requires Sound(s)
    ensures Sound(Insert(s, sid, m))
  {
    hide Insert, IndexSound, DropOwned;
    var ms := Session(s, sid);
    InsertClosed(s, sid, m);
    SplitIds(ms, m.id);
    ReplaceSound(s.providerIndex, ProviderTable(s), sid, ProviderIdsOf(Named(ms, m.id)),
                 ProviderIdsOf(Others(ms, m.id)), Single(m.id));
    ReplaceSound(s.taskIndex, TaskTable(s), sid, TaskIdsOf(Named(ms, m.id)), TaskIdsOf(Others(ms, m.id)),
                 TaskIds(m.tasks));
  }

  lemma PopManifestSound(s: State, sid: Sid, id: string)
    requires Sound(s)
    ensures Sound(PopManifest(s, sid, id))
  {
    if sid in s.providers {
      hide PopManifest, IndexSound, DropOwned;
      var ms := Session(s, sid);
      PopManifestClosed(s, sid, id);
      SplitIds(ms, id);
      ReplaceSound(s.providerIndex, ProviderTable(s), sid, ProviderIdsOf(Named(ms, id)),
                   ProviderIdsOf(Others(ms, id)), {});
      ReplaceSound(s.taskIndex, TaskTable(s), sid, TaskIdsOf(Named(ms, id)), TaskIdsOf(Others(ms, id)), {});
    }
  }

  /**
   Removing a session drops exactly the index entries that point at it: none of them stays,
   and an entry already remapped to another session is left alone.
   */
  lemma PopProviderExactly(s: State, sid: Sid)
    requires Sound(s)
    ensures var s' := PopProvider(s, sid);
            && s'.providerIndex == NotOwnedBy(s.providerIndex, sid)
            && s'.taskIndex == NotOwnedBy(s.taskIndex, sid)
            && s'.providers == s.providers - {sid}
            && s'.decoders == s.decoders - SessionTaskIds(s, sid)
  {
    ForgetAllClosed(s, Session(s, sid), sid);
    RemoveSound(s.providerIndex, ProviderTable(s), sid);
    RemoveSound(s.taskIndex, TaskTable(s), sid);
  }

  lemma PopProviderSound(s: State, sid: Sid)
    requires Sound(s)
    ensures Sound(PopProvider(s, sid))
  {
    hide PopProvider, IndexSound, DropOwned, NotOwnedBy;
    PopProviderExactly(s, sid);
    TablesRemoved(s, PopProvider(s, sid), sid);
    RemoveSound(s.providerIndex, ProviderTable(s), sid);
    RemoveSound(s.taskIndex, TaskTable(s), sid);
  }

  lemma ReplaceAt(ms: seq<Manifest>, i: nat, m: Manifest)
    requires i < |ms| && m.id == ms[i].id
    ensures ProviderIdsOf(ms[i := m]) == ProviderIdsOf(ms[..i] + ms[i + 1..]) + Single(m.id)
    ensures TaskIdsOf(ms[i := m]) == TaskIdsOf(ms[..i] + ms[i + 1..]) + TaskIds(m.tasks)
    ensures ProviderIdsOf(ms) == Single(ms[i].id) + ProviderIdsOf(ms[..i] + ms[i + 1..])
    ensures TaskIdsOf(ms) == TaskIds(ms[i].tasks) + TaskIdsOf(ms[..i] + ms[i + 1..])
  {
    var rest, changed := ms[..i] + ms[i + 1..], ms[i := m];
    assert ms == ms[..i] + [ms[i]] + ms[i + 1..] && changed == ms[..i] + [m] + ms[i + 1..];
    assert forall x :: x in ms <==> x == ms[i] || x in rest;
    assert forall x :: x in changed <==> x == m || x in rest;
  }

  lemma UpdateSound(s: State, sid: Sid, m: Manifest)
    requires Sound(s)
    ensures Sound(Update(s, sid, m))
  {
    var ms, i := Session(s, sid), FirstNamed(Session(s, sid), m.id);
    if i < |ms| {
      hide IndexSound, DropOwned, Pointing, ProviderTable, TaskTable, ProviderIdsOf, TaskIdsOf, TaskIds, Single;
      var s', stored, rest := Update(s, sid, m), m.(sid := sid), ms[..i] + ms[i + 1..];
      assert ms[i] in ms && ms[i].sid == sid;
      ReplaceAt(ms, i, stored);
      TablesReplaced(s, s', sid, ms[i := stored]);
      SessionTables(s, sid);
      ReplaceSound(s.providerIndex, ProviderTable(s), sid, Single(m.id), ProviderIdsOf(rest), Single(m.id));
      ReplaceSound(s.taskIndex, TaskTable(s), sid, TaskIds(ms[i].tasks), TaskIdsOf(rest), TaskIds(m.tasks));
      assert s'.providerIndex == DropOwned(s.providerIndex, Single(m.id), sid) + Pointing(Single(m.id), sid);
      assert s'.taskIndex == DropOwned(s.taskIndex, TaskIds(ms[i].tasks), sid) + Pointing(TaskIds(m.tasks), sid);
      assert Stamped(ms[i := stored], sid);
    }
  }

  lemma SessionTables(s: State, sid: Sid)
    ensures IdsOf(ProviderTable(s), sid) == ProviderIds(s, sid)
    ensures IdsOf(TaskTable(s), sid) == SessionTaskIds(s, sid)
  {
  }

  lemma NextSound(s: State, e: Event)
    requires Sound(s)
    ensures Sound(Next(s, e))
  {
    match e {
      case DoAdd(sid, m) => InsertSound(s, sid, m);
      case DoInsert(sid, m) => InsertSound(s, sid, m);
      case DoUpdate(sid, m) => UpdateSound(s, sid, m);
      case DoPopManifest(sid, id) => PopManifestSound(s, sid, id);
      case DoPopProvider(sid) => PopProviderSound(s, sid);
    }
  }

  /** Over every run, unchecked insertions and updates included, no index entry is wrong. */
  lemma {:induction false} RunSound(s: State, events: seq<Event>)
    requires Sound(s)
    ensures Sound(Run(s, events))
    decreases |events|
  {
    hide Sound, Next;
    if events == [] {
    } else {
      NextSound(s, events[0]);
      RunSound(Next(s, events[0]), events[1..]);
    }
  }
}
