/**
 One lookup index over one kind of id: the ids each session registers (`Table`), the map
 from id to session kept beside it, and what replacing some ids of a session does to both.
 */
module IdIndex {

  /** Socket.IO session ids are never empty. */
  type Sid = s: string | s != "" witness "s"

  type Table = map<Sid, set<string>>

  type Index = map<string, Sid>

  function IdsOf(table: Table, sid: Sid): set<string> {
    if sid in table then table[sid] else {}
  }

  /** Every entry points at a session that registers the id. */
  ghost predicate IndexSound(index: Index, table: Table) {
    forall id :: id in index ==> id in IdsOf(table, index[id])
  }

  /** Every registered id is found, at the session that registers it. */
  ghost predicate IndexComplete(index: Index, table: Table) {
    forall sid, id :: sid in table && id in table[sid] ==> id in index && index[id] == sid
  }

  /** Drop the entries of `ids` that point at `owner`, and no others. */
  function DropOwned(index: Index, ids: set<string>, owner: string): Index {
    map id | id in index && !(id in ids && index[id] == owner) :: index[id]
  }

  function Pointing(ids: set<string>, sid: Sid): Index {
    map id | id in ids :: sid
  }

  /** The index without every entry of one session. */
  function NotOwnedBy(index: Index, sid: Sid): Index {
    map id | id in index && index[id] != sid :: index[id]
  }

  lemma DropTwice(index: Index, a: set<string>, b: set<string>, owner: string)
    ensures DropOwned(DropOwned(index, a, owner), b, owner) == DropOwned(index, a + b, owner)
    ensures DropOwned(index, {}, owner) == index
  {
  }

  lemma ReplaceSound(index: Index, table: Table, sid: Sid, gone: set<string>, kept: set<string>, added: set<string>)
    requires IndexSound(index, table) && IdsOf(table, sid) <= gone + kept
    ensures IndexSound(DropOwned(index, gone, sid) + Pointing(added, sid), table[sid := kept + added])
  {
  }

  lemma RemoveSound(index: Index, table: Table, sid: Sid)
    requires IndexSound(index, table)
    ensures IndexSound(DropOwned(index, IdsOf(table, sid), sid), table - {sid})
    ensures DropOwned(index, IdsOf(table, sid), sid) == NotOwnedBy(index, sid)
  {
    var index', table' := DropOwned(index, IdsOf(table, sid), sid), table - {sid};
    forall id | id in index' ensures id in IdsOf(table', index'[id]) {
      assert id in IdsOf(table, index[id]);
    }
  }

  /** Ids another session registers. */
  ghost predicate OwnedElsewhere(table: Table, sid: Sid, id: string) {
    exists other :: other in table && other != sid && id in table[other]
  }

  /**
   Replacing `gone` by `added` keeps a complete index complete exactly when no surviving id
   of the session is dropped with `gone`, and no added id belongs to another session.
   */
  lemma ReplaceComplete(index: Index, table: Table, sid: Sid, gone: set<string>, kept: set<string>, added: set<string>)
    requires IndexComplete(index, table) && kept <= IdsOf(table, sid)
    ensures IndexComplete(DropOwned(index, gone, sid) + Pointing(added, sid), table[sid := kept + added]) <==>
            kept * gone <= added && forall id :: id in added ==> !OwnedElsewhere(table, sid, id)
  {
    var index', table' := DropOwned(index, gone, sid) + Pointing(added, sid), table[sid := kept + added];
    if kept * gone <= added && forall id :: id in added ==> !OwnedElsewhere(table, sid, id) {
      forall x, id | x in table' && id in table'[x] ensures id in index' && index'[id] == x {
        if x != sid {
          assert x in table && id in table[x];
          assert OwnedElsewhere(table, sid, id);
        }
      }
    }
    if IndexComplete(index', table') {
      assert sid in table' && table'[sid] == kept + added;
      forall id | id in added ensures !OwnedElsewhere(table, sid, id) {
        assert id in index' && index'[id] == sid;
        assert forall other :: other in table && other != sid ==> other in table' && table'[other] == table[other];
      }
      forall id | id in kept * gone ensures id in added {
        assert id in table'[sid];
        assert id in index' && index'[id] == sid;
        assert sid in table && id in table[sid];
        assert id in index && index[id] == sid;
        assert id !in DropOwned(index, gone, sid);
      }
    }
  }

  lemma RemoveComplete(index: Index, table: Table, sid: Sid)
    requires IndexComplete(index, table)
    ensures IndexComplete(NotOwnedBy(index, sid), table - {sid})
  {
    var index', table' := NotOwnedBy(index, sid), table - {sid};
    forall x, id | x in table' && id in table'[x] ensures id in index' && index'[id] == x {
      assert x in table && id in table[x];
    }
  }

  /** A sound and complete index answers exactly as a search of the table does. */
  lemma LookupIsSearch(index: Index, table: Table, id: string, sid: Sid)
    requires IndexSound(index, table) && IndexComplete(index, table)
    ensures id in index && index[id] == sid <==> id in IdsOf(table, sid)
    ensures OwnedElsewhere(table, sid, id) <==> id in index && index[id] != sid
  {
    if id in index {
      assert id in IdsOf(table, index[id]);
    }
  }

  // ---------------------------------------------------------------- a cache beside the index

  /** The cache holds exactly the values of the table's sessions, each under its indexed owner. */
  ghost predicate CacheExact<V>(cache: map<string, V>, index: Index, values: map<Sid, map<string, V>>) {
    && (forall id :: id in cache ==> id in index && index[id] in values && id in values[index[id]])
    && (forall sid, id :: sid in values && id in values[sid] ==>
          id in cache && cache[id] == values[sid][id] && id in index && index[id] == sid)
  }

  /** The ids dropped or added are the session's own, and no kept value is rebuilt. */
  ghost predicate OwnReplacement<V>(index: Index, sid: Sid, gone: set<string>, kept: map<string, V>,
                                    added: set<string>, built: map<string, V>) {
    && built.Keys <= added
    && (forall id :: id in gone + added && id in index ==> index[id] == sid)
    && (forall id :: id in kept ==> id !in added)
  }

  lemma CacheReplaceFinds<V>(cache: map<string, V>, index: Index, values: map<Sid, map<string, V>>, sid: Sid,
                             gone: set<string>, kept: map<string, V>, added: set<string>, built: map<string, V>,
                             id: string)
    requires CacheExact(cache, index, values) && OwnReplacement(index, sid, gone, kept, added, built)
    requires kept == (if sid in values then values[sid] else map[]) - gone
    requires id in (cache - gone) + built
    ensures var index', values' := DropOwned(index, gone, sid) + Pointing(added, sid), values[sid := kept + built];
            id in index' && index'[id] in values' && id in values'[index'[id]]
  {
    if id !in built {
      assert id in index && index[id] in values && id in values[index[id]];
      if index[id] == sid {
        assert id in kept;
      } else {
        assert id !in added;
      }
    }
  }

  lemma CacheReplaceHolds<V>(cache: map<string, V>, index: Index, values: map<Sid, map<string, V>>, sid: Sid,
                             gone: set<string>, kept: map<string, V>, added: set<string>, built: map<string, V>,
                             x: Sid, id: string)
    requires CacheExact(cache, index, values) && OwnReplacement(index, sid, gone, kept, added, built)
    requires kept == (if sid in values then values[sid] else map[]) - gone
    requires x in values[sid := kept + built] && id in values[sid := kept + built][x]
    ensures var cache', index' := (cache - gone) + built, DropOwned(index, gone, sid) + Pointing(added, sid);
            id in cache' && cache'[id] == values[sid := kept + built][x][id] && id in index' && index'[id] == x
  {
    if x != sid {
      assert x in values && id in values[x];
      assert id in index && index[id] == x;
      assert id !in gone + added;
    } else if id !in built {
      assert sid in values && id in values[sid];
    }
  }

  lemma CacheReplace<V>(cache: map<string, V>, index: Index, values: map<Sid, map<string, V>>, sid: Sid,
                        gone: set<string>, kept: map<string, V>, added: set<string>, built: map<string, V>)
    requires CacheExact(cache, index, values) && OwnReplacement(index, sid, gone, kept, added, built)
    requires kept == (if sid in values then values[sid] else map[]) - gone
    ensures CacheExact((cache - gone) + built, DropOwned(index, gone, sid) + Pointing(added, sid),
                       values[sid := kept + built])
  {
    hide DropOwned, Pointing, OwnReplacement;
    var cache', index', values' := (cache - gone) + built, DropOwned(index, gone, sid) + Pointing(added, sid),
        values[sid := kept + built];
    forall id | id in cache' ensures id in index' && index'[id] in values' && id in values'[index'[id]] {
      CacheReplaceFinds(cache, index, values, sid, gone, kept, added, built, id);
    }
    forall x, id | x in values' && id in values'[x]
      ensures id in cache' && cache'[id] == values'[x][id] && id in index' && index'[id] == x
    {
      CacheReplaceHolds(cache, index, values, sid, gone, kept, added, built, x, id);
    }
  }

  lemma CacheDrop<V>(cache: map<string, V>, index: Index, values: map<Sid, map<string, V>>, sid: Sid,
                     gone: set<string>, kept: map<string, V>)
    requires CacheExact(cache, index, values)
    requires forall id :: id in gone && id in index ==> index[id] == sid
    requires kept == (if sid in values then values[sid] else map[]) - gone
    ensures CacheExact(cache - gone, DropOwned(index, gone, sid) + Pointing({}, sid), values[sid := kept])
  {
    hide CacheExact, DropOwned, Pointing;
    CacheReplace(cache, index, values, sid, gone, kept, {}, map[]);
    assert (cache - gone) + map[] == cache - gone;
    assert kept + map[] == kept;
  }

  lemma CacheRemove<V>(cache: map<string, V>, index: Index, values: map<Sid, map<string, V>>, sid: Sid,
                       gone: set<string>)
    requires CacheExact(cache, index, values)
    requires forall id :: id in gone && id in index ==> index[id] == sid
    requires sid in values ==> values[sid].Keys <= gone
    ensures CacheExact(cache - gone, NotOwnedBy(index, sid), values - {sid})
  {
    var cache', index', values' := cache - gone, NotOwnedBy(index, sid), values - {sid};
    forall id | id in cache' ensures id in index' && index'[id] in values' && id in values'[index'[id]] {
      assert id in index && index[id] in values && id in values[index[id]];
    }
    forall x, id | x in values' && id in values'[x]
      ensures id in cache' && cache'[id] == values'[x][id] && id in index' && index'[id] == x
    {
      assert x in values && id in values[x];
    }
  }
}
