/**
 The registry object: the dictionaries of `Registry.State`, updated in place by loops over
 manifests and tasks. Each method is one locked section of the source.
 */
module ProviderRegistry {
  import opened Options
  import opened IdIndex
  import opened Registry
  import opened RegistryExactness

  class ProviderRegistry {
    var providers: map<Sid, seq<Manifest>>
    var decoders: map<string, Config>
    var providerSidIndex: Index
    var taskSidIndex: Index

    ghost function Abs(): State
      reads this
    {
      State(providers, decoders, providerSidIndex, taskSidIndex)
    }

    constructor ()
      ensures Abs() == EMPTY && Exact(Abs())
    {
      providers, decoders, providerSidIndex, taskSidIndex := map[], map[], map[], map[];
      new;
      EmptyExact();
    }

    method IndexManifest(sid: Sid, m: Manifest)
      modifies this`providerSidIndex, this`taskSidIndex
      ensures Abs() == Registry.IndexManifest(old(Abs()), sid, m)
      ensures forall id :: id in providerSidIndex <==> id in old(providerSidIndex) || (id == m.id && id != "")
      ensures forall id :: id in taskSidIndex <==> id in old(taskSidIndex) || ListsTask(m, id)
      ensures forall id :: id in providerSidIndex ==>
                providerSidIndex[id] == if id == m.id && id != "" then sid else old(providerSidIndex)[id]
      ensures forall id :: id in taskSidIndex ==>
                taskSidIndex[id] == if ListsTask(m, id) then sid else old(taskSidIndex)[id]
    {
      hide ListsTask;
      ListedTasks(m);
      hide Pointing, TaskIds;
      PointingNext(providerSidIndex, {}, m.id, sid);
      PointingNothing(taskSidIndex, sid);
      if m.id != "" {
        providerSidIndex := providerSidIndex[m.id := sid];
      }
      NoTasks(m.tasks);
      for i := 0 to |m.tasks|
        invariant providerSidIndex == old(providerSidIndex) + Pointing(Single(m.id), sid)
        invariant taskSidIndex == old(taskSidIndex) + Pointing(TaskIds(m.tasks[..i]), sid)
      {
        TaskIdsStep(m.tasks, i);
        var tid := m.tasks[i].id;
        PointingNext(old(taskSidIndex), TaskIds(m.tasks[..i]), tid, sid);
        if tid != "" {
          taskSidIndex := taskSidIndex[tid := sid];
        }
      }
      assert m.tasks[..|m.tasks|] == m.tasks;
      PointingReads(old(taskSidIndex), TaskIds(m.tasks), sid);
      PointingReads(old(providerSidIndex), Single(m.id), sid);
    }

    method UnindexManifest(m: Manifest)
      modifies this`providerSidIndex, this`taskSidIndex
      ensures Abs() == Registry.UnindexManifest(old(Abs()), m)
      ensures forall id :: id in providerSidIndex <==>
                id in old(providerSidIndex) && !(id == m.id && id != "" && old(providerSidIndex)[id] == m.sid)
      ensures forall id :: id in taskSidIndex <==>
                id in old(taskSidIndex) && !(ListsTask(m, id) && old(taskSidIndex)[id] == m.sid)
      ensures forall id :: id in providerSidIndex ==> providerSidIndex[id] == old(providerSidIndex)[id]
      ensures forall id :: id in taskSidIndex ==> taskSidIndex[id] == old(taskSidIndex)[id]
    {
      hide ListsTask;
      ListedTasks(m);
      hide DropOwned, TaskIds;
      DropNext(providerSidIndex, {}, m.id, m.sid);
      DropNext(taskSidIndex, {}, "", m.sid);
      if m.id != "" && m.id in providerSidIndex && providerSidIndex[m.id] == m.sid {
        providerSidIndex := providerSidIndex - {m.id};
      }
      NoTasks(m.tasks);
      for i := 0 to |m.tasks|
        invariant providerSidIndex == DropOwned(old(providerSidIndex), Single(m.id), m.sid)
        invariant taskSidIndex == DropOwned(old(taskSidIndex), TaskIds(m.tasks[..i]), m.sid)
      {
        TaskIdsStep(m.tasks, i);
        DropNext(old(taskSidIndex), TaskIds(m.tasks[..i]), m.tasks[i].id, m.sid);
        var tid := m.tasks[i].id;
        if tid != "" && tid in taskSidIndex && taskSidIndex[tid] == m.sid {
          taskSidIndex := taskSidIndex - {tid};
        }
      }
      assert m.tasks[..|m.tasks|] == m.tasks;
      DropReads(old(taskSidIndex), TaskIds(m.tasks), m.sid);
      DropReads(old(providerSidIndex), Single(m.id), m.sid);
    }

    /** Unindex a manifest and drop the decoders of its tasks. */
    method ForgetManifest(m: Manifest)
      modifies this`providerSidIndex, this`taskSidIndex, this`decoders
      ensures Abs() == Forget(old(Abs()), m)
    {
      UnindexManifest(m);
      for i := 0 to |m.tasks|
        invariant decoders == old(decoders) - TaskIds(m.tasks[..i])
        invariant Abs() == Registry.UnindexManifest(old(Abs()), m).(decoders := decoders)
      {
        TaskIdsStep(m.tasks, i);
        if m.tasks[i].id != "" {
          decoders := decoders - {m.tasks[i].id};
        }
      }
      assert m.tasks[..|m.tasks|] == m.tasks;
    }

    method ForgetManifests(ms: seq<Manifest>)
      modifies this`providerSidIndex, this`taskSidIndex, this`decoders
      ensures Abs() == ForgetAll(old(Abs()), ms)
    {
      var i := 0;
      while i < |ms|
        invariant 0 <= i <= |ms|
        invariant ForgetAll(Abs(), ms[i..]) == ForgetAll(old(Abs()), ms)
      {
        ForgetManifest(ms[i]);
        assert ms[i..][1..] == ms[i + 1..];
        i := i + 1;
      }
    }

    method BuildManifestDecoders(m: Manifest) returns (result: map<string, Config>)
      ensures result == BuildDecoders(m.tasks)
      ensures forall id, c :: id in result && result[id] == c <==> LastDecodes(m.tasks, id, c)
    {
      hide LastDecodes;
      result := map[];
      for i := 0 to |m.tasks|
        invariant result == BuildDecoders(m.tasks[..i])
      {
        assert m.tasks[..i + 1][..i] == m.tasks[..i];
        var t := m.tasks[i];
        if t.decoder.None? || t.decoder.value.kind != "generic_binary" {
          continue;
        }
        if t.id == "" || t.decoder.value.faulty {
          continue;
        }
        result := result[t.id := t.decoder.value];
      }
      assert m.tasks[..|m.tasks|] == m.tasks;
      forall id, c ensures id in result && result[id] == c <==> LastDecodes(m.tasks, id, c) {
        BuildsExactly(m.tasks, id, c);
      }
    }

    /** Ids of the manifest that another session already owns. */
    method FindIdConflicts(sid: Sid, m: Manifest) returns (conflicts: seq<string>)
      ensures (set c | c in conflicts) == Conflicts(Abs(), sid, m)
      ensures forall c :: c in conflicts <==>
                && c != "" && (c == m.id || ListsTask(m, c))
                && if c in providerSidIndex then providerSidIndex[c] != sid
                   else c in taskSidIndex && taskSidIndex[c] != sid
    {
      ListedTasks(m);
      hide ListsTask;
      conflicts := [];
      var candidates := [m.id] + seq(|m.tasks|, i requires 0 <= i < |m.tasks| => m.tasks[i].id);
      for i := 0 to |candidates|
        invariant forall c :: c in conflicts <==> c in candidates[..i] && c in Conflicts(Abs(), sid, m)
      {
        var c := candidates[i];
        assert candidates[..i + 1] == candidates[..i] + [c];
        if c == "" {
          continue;
        }
        assert c in TaskIds(m.tasks) + ProviderIdsOf([m]) by {
          if i > 0 {
            assert m.tasks[i - 1] in m.tasks;
          }
        }
        var owner := if c in providerSidIndex then Some(providerSidIndex[c])
                     else if c in taskSidIndex then Some(taskSidIndex[c])
                     else None;
        if owner.Some? && owner.value != sid {
          conflicts := conflicts + [c];
        }
      }
      assert candidates[..|candidates|] == candidates;
      forall c | c in Conflicts(Abs(), sid, m) ensures c in candidates {
        if c in TaskIds(m.tasks) {
          var t :| t in m.tasks && t.id == c;
          var k :| 0 <= k < |m.tasks| && m.tasks[k] == t;
          assert candidates[k + 1] == c;
        } else {
          assert candidates[0] == c;
        }
      }
    }

    method AddProvider(sid: Sid, m: Manifest) returns (added: bool)
      modifies this
      ensures added == Accepts(old(Abs()), sid, m)
      ensures Abs() == Add(old(Abs()), sid, m)
      ensures old(Exact(Abs())) && old(FitsSession(Abs(), sid, m)) ==> Exact(Abs())
      ensures added <==>
                && (forall i, j :: 0 <= i < j < |m.tasks| && m.tasks[i].id != "" ==> m.tasks[i].id != m.tasks[j].id)
                && forall c :: c != "" && (c == m.id || ListsTask(m, c)) ==>
                     if c in old(providerSidIndex) then old(providerSidIndex)[c] == sid
                     else c in old(taskSidIndex) ==> old(taskSidIndex)[c] == sid
      ensures !added ==> Abs() == old(Abs())
      ensures added ==>
        && providers.Keys == old(providers).Keys + {sid}
        && (forall x :: x in old(providers) && x != sid ==> providers[x] == old(providers)[x])
        && (forall x :: x in providers[sid] <==>
              x == m.(sid := sid) || (sid in old(providers) && x in old(providers)[sid] && x.id != m.id))
    {
      hide Insert, BuildDecoders, LastDecodes, Exact, FitsSession, ListsTask, TaskIds, ProviderIdsOf, Conflicts;
      ghost var before := Abs();
      if !DistinctIds(m.tasks) {
        return false;
      }
      var conflicts := FindIdConflicts(sid, m);
      if conflicts != [] {
        assert conflicts[0] in conflicts;
        assert conflicts[0] in Conflicts(before, sid, m);
        return false;
      }
      assert Conflicts(before, sid, m) == {};
      var built := BuildManifestDecoders(m);
      InsertProvider(sid, m, built);
      if Exact(before) && FitsSession(before, sid, m) {
        InsertExact(before, sid, m);
      }
      return true;
    }

    /** The section of `add_provider` that runs under the lock, with decoders built before it. */
    method InsertProvider(sid: Sid, m: Manifest, built: map<string, Config>)
      requires built == BuildDecoders(m.tasks)
      modifies this
      ensures Abs() == Insert(old(Abs()), sid, m)
      ensures providers.Keys == old(providers).Keys + {sid}
      ensures forall x :: x in old(providers) && x != sid ==> providers[x] == old(providers)[x]
      ensures forall x :: x in providers[sid] <==>
                x == m.(sid := sid) || (sid in old(providers) && x in old(providers)[sid] && x.id != m.id)
    {
      var stored := m.(sid := sid);
      var present := if sid in providers then providers[sid] else [];
      ForgetManifests(Named(present, m.id));
      ForgetKeepsProviders(old(Abs()), Named(present, m.id));
      providers := providers[sid := Others(present, m.id) + [stored]];
      IndexManifest(sid, stored);
      decoders := decoders + built;
    }

    method PopProvider(sid: Sid) returns (removed: seq<Manifest>)
      modifies this
      ensures removed == Session(old(Abs()), sid)
      ensures removed == (if sid in old(providers) then old(providers)[sid] else [])
      ensures providers == old(providers) - {sid}
      ensures Abs() == Registry.PopProvider(old(Abs()), sid)
      ensures old(Exact(Abs())) ==> Exact(Abs())
    {
      ghost var before := Abs();
      removed := if sid in providers then providers[sid] else [];
      providers := providers - {sid};
      ForgetManifests(removed);
      ForgetIgnoresProviders(before, Abs(), removed, before.providers - {sid});
      if Exact(before) {
        PopProviderExact(before, sid);
      }
    }

    method PopManifest(sid: Sid, id: string) returns (dropped: seq<Manifest>)
      modifies this
      ensures dropped == Named(Session(old(Abs()), sid), id)
      ensures sid !in old(providers) ==> dropped == [] && Abs() == old(Abs())
      ensures sid in old(providers) ==>
        && providers.Keys == old(providers).Keys
        && (forall x :: x in providers && x != sid ==> providers[x] == old(providers)[x])
        && (forall x :: x in providers[sid] <==> x in old(providers)[sid] && x.id != id)
        && (forall x :: x in dropped <==> x in old(providers)[sid] && x.id == id)
      ensures Abs() == Registry.PopManifest(old(Abs()), sid, id)
      ensures old(Exact(Abs())) ==> Exact(Abs())
    {
      ghost var before := Abs();
      if Exact(before) {
        PopManifestExact(before, sid, id);
      }
      if sid !in providers {
        return [];
      }
      dropped := Named(providers[sid], id);
      ForgetManifests(dropped);
      ForgetKeepsProviders(before, dropped);
      providers := providers[sid := Others(providers[sid], id)];
    }

    method UpdateProviderManifest(sid: Sid, m: Manifest) returns (updated: bool)
      modifies this
      ensures updated == (FirstNamed(Session(old(Abs()), sid), m.id) < |Session(old(Abs()), sid)|)
      ensures Abs() == Update(old(Abs()), sid, m)
      ensures updated <==> sid in old(providers) && exists x :: x in old(providers)[sid] && x.id == m.id
      ensures !updated ==> Abs() == old(Abs())
      ensures updated ==>
        && decoders == old(decoders) && providers.Keys == old(providers).Keys
        && (forall x :: x in providers && x != sid ==> providers[x] == old(providers)[x])
        && (var i := FirstNamed(old(providers)[sid], m.id);
            providers[sid] == old(providers)[sid][i := m.(sid := sid)])
      ensures old(Sound(Abs())) ==> Sound(Abs())
    {
      ghost var before := Abs();
      if Sound(before) {
        UpdateSound(before, sid, m);
      }
      if sid !in providers {
        return false;
      }
      var ms := providers[sid];
      for i := 0 to |ms|
        invariant forall k :: 0 <= k < i ==> ms[k].id != m.id
        invariant Abs() == before
      {
        if ms[i].id == m.id {
          assert FirstNamed(ms, m.id) == i;
          UnindexManifest(ms[i]);
          IndexManifest(sid, m.(sid := sid));
          providers := providers[sid := ms[i := m.(sid := sid)]];
          return true;
        }
      }
      return false;
    }

    method FindProviderSid(id: string) returns (owner: Option<Sid>)
      ensures owner == Find(Abs(), id)
      ensures owner == if id == "" then None
                       else if id in providerSidIndex then Some(providerSidIndex[id])
                       else if id in taskSidIndex then Some(taskSidIndex[id])
                       else None
      ensures Exact(Abs()) ==>
                forall sid :: owner == Some(sid) <==> id != "" && sid in providers && CarriedBy(providers[sid], id)
    {
      if Exact(Abs()) && id != "" {
        forall sid: Sid ensures Find(Abs(), id) == Some(sid) <==> sid in providers && CarriedBy(providers[sid], id) {
          FindIsScan(Abs(), id, sid);
        }
      }
      hide Exact, CarriedBy;
      if id == "" {
        return None;
      }
      if id in providerSidIndex {
        return Some(providerSidIndex[id]);
      }
      return if id in taskSidIndex then Some(taskSidIndex[id]) else None;
    }

    /**
     The linear search `get_secret_for_source` makes, sessions in any order: the session
     and the manifest it finds. With exact indices it finds what the lookup finds.
     */
    method ScanForSource(id: string) returns (owner: Option<Sid>, found: Option<Manifest>)
      requires id != ""
      ensures owner.Some? <==> exists sid :: id in Registered(Abs(), sid)
      ensures owner.Some? ==>
        && found.Some? && found.value in Session(Abs(), owner.value)
        && (found.value.id == id || id in TaskIds(found.value.tasks))
        && id in Registered(Abs(), owner.value)
      ensures Exact(Abs()) ==> owner == Find(Abs(), id)
    {
      var todo := providers.Keys;
      while todo != {}
        invariant todo <= providers.Keys
        invariant forall sid :: sid in providers.Keys - todo ==> id !in Registered(Abs(), sid)
      {
        var sid: Sid :| sid in todo;
        todo := todo - {sid};
        var ms := providers[sid];
        for i := 0 to |ms|
          invariant forall k :: 0 <= k < i ==> ms[k].id != id && id !in TaskIds(ms[k].tasks)
        {
          if ms[i].id == id || exists t :: t in ms[i].tasks && t.id == id {
            ManifestRegisters(Abs(), sid, ms[i], id);
            if Exact(Abs()) {
              FindIsScan(Abs(), id, sid);
            }
            return Some(sid), Some(ms[i]);
          }
        }
      }
      forall sid: Sid ensures id !in Registered(Abs(), sid) {
        assert sid !in providers ==> Session(Abs(), sid) == [];
      }
      if Exact(Abs()) {
        var f := Find(Abs(), id);
        if f.Some? {
          FindIsScan(Abs(), id, f.value);
        }
      }
      return None, None;
    }
  }

  /** A task of the manifest has this id. */
  ghost predicate ListsTask(m: Manifest, id: string) {
    id != "" && exists i :: 0 <= i < |m.tasks| && m.tasks[i].id == id
  }

  lemma ListedTasks(m: Manifest)
    ensures forall id :: id in TaskIds(m.tasks) <==> ListsTask(m, id)
  {
    forall id | ListsTask(m, id) ensures id in TaskIds(m.tasks) {
      var i :| 0 <= i < |m.tasks| && m.tasks[i].id == id;
      assert m.tasks[i] in m.tasks;
    }
  }

  lemma PointingReads(index: Index, ids: set<string>, sid: Sid)
    ensures var p := index + Pointing(ids, sid);
            && (forall id :: id in p <==> id in index || id in ids)
            && (forall id :: id in p ==> p[id] == if id in ids then sid else index[id])
  {
  }

  lemma DropReads(index: Index, ids: set<string>, owner: string)
    ensures var d := DropOwned(index, ids, owner);
            && (forall id :: id in d <==> id in index && !(id in ids && index[id] == owner))
            && (forall id :: id in d ==> d[id] == index[id])
  {
  }

  lemma NoTasks(tasks: seq<Task>)
    ensures TaskIds(tasks[..0]) == {}
  {
  }

  lemma PointingNext(index: Index, ids: set<string>, id: string, sid: Sid)
    ensures id != "" ==> (index + Pointing(ids, sid))[id := sid] == index + Pointing(ids + Single(id), sid)
    ensures id == "" ==> ids + Single(id) == ids
    ensures index + Pointing({}, sid) == index
    ensures {} + Single(id) == Single(id)
  {
  }

  /** Dropping one more id, if it is owned, is one `pop`. */
  lemma DropNext(index: Index, ids: set<string>, id: string, owner: string)
    ensures var d := DropOwned(index, ids, owner);
            DropOwned(index, ids + Single(id), owner) == if id != "" && id in d && d[id] == owner then d - {id} else d
    ensures DropOwned(index, {}, owner) == index
    ensures {} + Single(id) == Single(id)
  {
  }

  /** Each manifest of a session registers its ids there. */
  lemma ManifestRegisters(s: State, sid: Sid, m: Manifest, id: string)
    requires m in Session(s, sid) && id != "" && (m.id == id || id in TaskIds(m.tasks))
    ensures id in Registered(s, sid)
  {
  }

  lemma TaskIdsStep(tasks: seq<Task>, i: nat)
    requires i < |tasks|
    ensures TaskIds(tasks[..i + 1]) == TaskIds(tasks[..i]) + Single(tasks[i].id)
    ensures TaskIds(tasks[..0]) == {}
  {
    assert tasks[..i + 1] == tasks[..i] + [tasks[i]];
  }

  lemma {:induction false} ForgetKeepsProviders(s: State, ms: seq<Manifest>)
    ensures ForgetAll(s, ms).providers == s.providers
    decreases |ms|
  {
    if ms == [] {
    } else {
      ForgetKeepsProviders(Forget(s, ms[0]), ms[1..]);
    }
  }

  /** Forgetting reads and writes the indices and the cache only. */
  lemma {:induction false} ForgetIgnoresProviders(s: State, f: State, ms: seq<Manifest>, p: map<Sid, seq<Manifest>>)
    requires f == ForgetAll(s.(providers := p), ms)
    ensures f == ForgetAll(s, ms).(providers := p)
    decreases |ms|
  {
    if ms == [] {
    } else {
      assert Forget(s.(providers := p), ms[0]) == Forget(s, ms[0]).(providers := p);
      ForgetIgnoresProviders(Forget(s, ms[0]), f, ms[1..], p);
    }
  }
}
