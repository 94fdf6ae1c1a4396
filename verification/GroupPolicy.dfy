/**
 Group exclusivity: tasks of one provider run in parallel only within one group. The check
 searches the manifests for the owner of a task and compares its group with those of the
 active tasks; the assignment takes the lock a second time.
 */
module GroupPolicy {
  import opened Options
  import Registry

  type Manifest = Registry.Manifest

  type Task = Registry.Task

  /** Slots are keyed by whatever name the workbench gives them. */
  type Slot = string

  type Slots = map<Slot, string>

  const DEFAULT_GROUP := "__default__"

  function GroupOf(t: Task): string {
    if t.group == "" then DEFAULT_GROUP else t.group
  }

  predicate Lists(m: Manifest, id: string) {
    exists t :: t in m.tasks && t.id == id
  }

  /** The first task of that id. */
  function TaskAt(tasks: seq<Task>, id: string): (i: nat)
    requires exists t :: t in tasks && t.id == id
    ensures i < |tasks| && tasks[i].id == id
    ensures forall k :: 0 <= k < i ==> tasks[k].id != id
  {
    if tasks[0].id == id then 0 else 1 + TaskAt(tasks[1..], id)
  }

  function GroupIn(m: Manifest, id: string): string
    requires Lists(m, id)
  {
    GroupOf(m.tasks[TaskAt(m.tasks, id)])
  }

  /** The place of the first manifest that lists the task; past the end if none does. */
  function Owner(ms: seq<Manifest>, id: string): (i: nat)
    ensures i <= |ms| && (i < |ms| ==> Lists(ms[i], id))
    ensures forall k :: 0 <= k < i ==> !Lists(ms[k], id)
  {
    if ms == [] || Lists(ms[0], id) then 0 else 1 + Owner(ms[1..], id)
  }

  /** Two tasks of one manifest that must not be active together. */
  predicate Clash(m: Manifest, a: string, b: string) {
    Lists(m, a) && Lists(m, b) && GroupIn(m, a) != GroupIn(m, b)
  }

  /** What `check_group_exclusivity` allows. */
  predicate Allowed(ms: seq<Manifest>, slots: Slots, id: string) {
    Owner(ms, id) < |ms| ==> forall slot :: slot in slots ==> !Clash(ms[Owner(ms, id)], id, slots[slot])
  }

  /** Task `i` is the first of the list with that id. */
  ghost predicate FirstOf(tasks: seq<Task>, i: nat, id: string) {
    i < |tasks| && tasks[i].id == id && forall k :: 0 <= k < i ==> tasks[k].id != id
  }

  /** By the manifest's own fields: the two tasks have different groups, a missing one counting as "__default__". */
  ghost predicate GroupsDiffer(m: Manifest, a: string, b: string) {
    exists i: nat, j: nat :: FirstOf(m.tasks, i, a) && FirstOf(m.tasks, j, b) &&
      (if m.tasks[i].group == "" then "__default__" else m.tasks[i].group) !=
      (if m.tasks[j].group == "" then "__default__" else m.tasks[j].group)
  }

  /** The first manifest that lists the task also lists an active task whose group differs. */
  ghost predicate Conflicting(ms: seq<Manifest>, slots: Slots, id: string) {
    exists o, slot :: 0 <= o < |ms| && slot in slots && GroupsDiffer(ms[o], id, slots[slot])
      && forall k, t :: 0 <= k < o && t in ms[k].tasks ==> t.id != id
  }

  lemma FirstIsTaskAt(tasks: seq<Task>, i: nat, id: string)
    requires exists t :: t in tasks && t.id == id
    ensures FirstOf(tasks, i, id) <==> i == TaskAt(tasks, id)
  {
    var k := TaskAt(tasks, id);
    assert FirstOf(tasks, k, id);
  }

  lemma ClashIsByField(m: Manifest, a: string, b: string)
    ensures Clash(m, a, b) <==> GroupsDiffer(m, a, b)
  {
    if Clash(m, a, b) {
      FirstIsTaskAt(m.tasks, TaskAt(m.tasks, a), a);
      FirstIsTaskAt(m.tasks, TaskAt(m.tasks, b), b);
    }
    if GroupsDiffer(m, a, b) {
      var i: nat, j: nat :| FirstOf(m.tasks, i, a) && FirstOf(m.tasks, j, b) &&
        (if m.tasks[i].group == "" then "__default__" else m.tasks[i].group) !=
        (if m.tasks[j].group == "" then "__default__" else m.tasks[j].group);
      assert m.tasks[i] in m.tasks && m.tasks[j] in m.tasks;
      FirstIsTaskAt(m.tasks, i, a);
      FirstIsTaskAt(m.tasks, j, b);
    }
  }

  /** What the check decides, by the fields alone. */
  lemma AllowedByField(ms: seq<Manifest>, slots: Slots, id: string)
    ensures Allowed(ms, slots, id) <==> !Conflicting(ms, slots, id)
  {
    hide GroupsDiffer, Clash, Owner;
    if Conflicting(ms, slots, id) {
      var o, slot :| 0 <= o < |ms| && slot in slots && GroupsDiffer(ms[o], id, slots[slot])
        && forall k, t :: 0 <= k < o && t in ms[k].tasks ==> t.id != id;
      ClashIsByField(ms[o], id, slots[slot]);
      ClashListed(ms[o], id, slots[slot]);
      assert o == Owner(ms, id);
    }
    if !Allowed(ms, slots, id) {
      var o := Owner(ms, id);
      var slot :| slot in slots && Clash(ms[o], id, slots[slot]);
      ClashIsByField(ms[o], id, slots[slot]);
      assert forall k, t :: 0 <= k < o && t in ms[k].tasks ==> t.id != id;
    }
  }

  lemma ClashListed(m: Manifest, a: string, b: string)
    requires Clash(m, a, b)
    ensures Lists(m, a)
  {
  }

  datatype Event =
    | Assign(slot: Slot, id: string)
    | Unassign(slot: Slot)
    | ClearAll

  function Next(ms: seq<Manifest>, slots: Slots, e: Event): Slots {
    match e
    case Assign(slot, id) => if id != "" && Allowed(ms, slots, id) then slots[slot := id] else slots
    case Unassign(slot) => slots - {slot}
    case ClearAll => map[]
  }

  function Run(ms: seq<Manifest>, slots: Slots, events: seq<Event>): Slots
    decreases |events|
  {
    if events == [] then slots else Run(ms, Next(ms, slots, events[0]), events[1..])
  }

  // ---------------------------------------------------------------- exclusivity

  /** No manifest has active tasks of two groups. */
  ghost predicate Exclusive(ms: seq<Manifest>, slots: Slots) {
    forall m, a, b :: m in ms && a in slots && b in slots ==> !Clash(m, slots[a], slots[b])
  }

  /** No two active tasks with the same owner have different groups. */
  ghost predicate ExclusiveByOwner(ms: seq<Manifest>, slots: Slots) {
    forall a, b :: a in slots && b in slots ==> !OwnersClash(ms, slots[a], slots[b])
  }

  predicate OwnersClash(ms: seq<Manifest>, a: string, b: string) {
    Owner(ms, a) == Owner(ms, b) < |ms| && Clash(ms[Owner(ms, a)], a, b)
  }

  /** A task id is listed by one manifest only. */
  ghost predicate UniqueIds(ms: seq<Manifest>) {
    forall i, j, id :: 0 <= i < |ms| && 0 <= j < |ms| && Lists(ms[i], id) && Lists(ms[j], id) ==> i == j
  }

  lemma ClashSymmetric(m: Manifest, a: string, b: string)
    ensures Clash(m, a, b) == Clash(m, b, a)
    ensures !Clash(m, a, a)
  {
  }

  /** Without any assumption on ids, tasks of one owner never clash. */
  lemma NextExclusiveByOwner(ms: seq<Manifest>, slots: Slots, e: Event)
    requires ExclusiveByOwner(ms, slots)
    ensures ExclusiveByOwner(ms, Next(ms, slots, e))
  {
    hide Clash, Owner;
    var slots' := Next(ms, slots, e);
    forall a, b | a in slots' && b in slots' ensures !OwnersClash(ms, slots'[a], slots'[b]) {
      if Owner(ms, slots'[a]) < |ms| {
        ClashSymmetric(ms[Owner(ms, slots'[a])], slots'[a], slots'[b]);
      }
      if a in slots && slots[a] == slots'[a] && b in slots && slots[b] == slots'[b] {
        assert !OwnersClash(ms, slots[a], slots[b]);
      }
    }
  }

  lemma {:induction false} RunExclusiveByOwner(ms: seq<Manifest>, slots: Slots, events: seq<Event>)
    requires ExclusiveByOwner(ms, slots)
    ensures ExclusiveByOwner(ms, Run(ms, slots, events))
    decreases |events|
  {
    hide ExclusiveByOwner, Next;
    if events == [] {
    } else {
      NextExclusiveByOwner(ms, slots, events[0]);
      RunExclusiveByOwner(ms, Next(ms, slots, events[0]), events[1..]);
    }
  }

  /** With distinct task ids the owner is the only manifest that lists a task. */
  lemma ByOwnerIsExclusive(ms: seq<Manifest>, slots: Slots)
    requires UniqueIds(ms)
    ensures ExclusiveByOwner(ms, slots) <==> Exclusive(ms, slots)
  {
    hide GroupIn;
    if ExclusiveByOwner(ms, slots) {
      forall m, a, b | m in ms && a in slots && b in slots ensures !Clash(m, slots[a], slots[b]) {
        var i :| 0 <= i < |ms| && ms[i] == m;
        assert !OwnersClash(ms, slots[a], slots[b]);
      }
    }
    if Exclusive(ms, slots) {
      forall a, b | a in slots && b in slots ensures !OwnersClash(ms, slots[a], slots[b]) {
        if Owner(ms, slots[a]) < |ms| {
          assert ms[Owner(ms, slots[a])] in ms;
        }
      }
    }
  }

  /**
   Every state reached by assigning, unassigning and clearing, from empty slots and with
   distinct task ids, has the active tasks of each provider in one group.
   */
  lemma AlwaysExclusive(ms: seq<Manifest>, events: seq<Event>)
    requires UniqueIds(ms)
    ensures var slots := Run(ms, map[], events);
            && Exclusive(ms, slots)
            && forall m, a, b :: m in ms && a in slots && b in slots ==> !GroupsDiffer(m, slots[a], slots[b])
  {
    hide Run, UniqueIds, GroupsDiffer, Clash;
    var slots := Run(ms, map[], events);
    RunExclusiveByOwner(ms, map[], events);
    ByOwnerIsExclusive(ms, slots);
    forall m, a, b | m in ms && a in slots && b in slots ensures !GroupsDiffer(m, slots[a], slots[b]) {
      ClashIsByField(m, slots[a], slots[b]);
    }
  }

  // ---------------------------------------------------------------- what the check decides

  /**
   Storing a task in a slot keeps the slots exclusive exactly when the check would allow it
   with that slot empty at the moment of storing. The code checks at an earlier moment.
   */
  lemma StoreExactly(ms: seq<Manifest>, slots: Slots, slot: Slot, id: string)
    requires UniqueIds(ms) && Exclusive(ms, slots)
    ensures Exclusive(ms, slots[slot := id]) <==> Allowed(ms, slots - {slot}, id)
  {
    hide GroupIn, UniqueIds;
    var slots' := slots[slot := id];
    if Exclusive(ms, slots') && Owner(ms, id) < |ms| {
      forall s | s in slots - {slot} ensures !Clash(ms[Owner(ms, id)], id, slots[s]) {
        assert s in slots' && slots'[s] == slots[s] && slots'[slot] == id;
        assert ms[Owner(ms, id)] in ms;
      }
    }
    if Allowed(ms, slots - {slot}, id) {
      forall m, a, b | m in ms && a in slots' && b in slots' ensures !Clash(m, slots'[a], slots'[b]) {
        ClashSymmetric(m, slots'[a], slots'[b]);
        ClashSymmetric(m, id, id);
        if a == slot && b != slot {
          StoredClash(ms, slots, slot, id, m, b);
        } else if a != slot && b == slot {
          StoredClash(ms, slots, slot, id, m, a);
          ClashSymmetric(m, id, slots[a]);
        }
      }
    }
  }

  lemma StoredClash(ms: seq<Manifest>, slots: Slots, slot: Slot, id: string, m: Manifest, b: Slot)
    requires UniqueIds(ms) && Allowed(ms, slots - {slot}, id) && m in ms && b in slots && b != slot
    ensures !Clash(m, id, slots[b])
  {
    hide GroupIn;
    if Lists(m, id) {
      var i :| 0 <= i < |ms| && ms[i] == m;
      assert Owner(ms, id) == i;
      assert b in slots - {slot} && (slots - {slot})[b] == slots[b];
    }
  }

  /**
   An assignment is refused although its result would be exclusive exactly when the only
   clashing task is the one it would replace.
   */
  lemma RefusedNeedlessly(ms: seq<Manifest>, slots: Slots, slot: Slot, id: string)
    requires UniqueIds(ms) && Exclusive(ms, slots)
    ensures !Allowed(ms, slots, id) && Exclusive(ms, slots[slot := id]) <==>
            && Owner(ms, id) < |ms|
            && slot in slots && Clash(ms[Owner(ms, id)], id, slots[slot])
            && forall s :: s in slots && s != slot ==> !Clash(ms[Owner(ms, id)], id, slots[s])
  {
    hide Clash, UniqueIds, Exclusive;
    StoreExactly(ms, slots, slot, id);
    assert forall s :: s in slots && s != slot <==> s in slots - {slot};
  }

  /**
   Two assignments to free slots that are both checked before either is stored end
   exclusive exactly when their tasks do not clash with each other.
   */
  lemma RacingAssignments(ms: seq<Manifest>, slots: Slots, s1: Slot, a: string, s2: Slot, b: string)
    requires UniqueIds(ms) && Exclusive(ms, slots) && s1 != s2 && s1 !in slots && s2 !in slots
    requires Allowed(ms, slots, a) && Allowed(ms, slots, b) && Owner(ms, a) < |ms|
    ensures Exclusive(ms, slots[s1 := a][s2 := b]) <==> !Clash(ms[Owner(ms, a)], a, b)
  {
    hide Clash, UniqueIds, Exclusive;
    var mid := slots[s1 := a];
    assert slots - {s1} == slots && mid - {s2} == mid;
    StoreExactly(ms, slots, s1, a);
    StoreExactly(ms, mid, s2, b);
    OwnersMeet(ms, a, b);
    if Owner(ms, b) < |ms| {
      ClashSymmetric(ms[Owner(ms, b)], a, b);
      assert Allowed(ms, mid, b) <==> !Clash(ms[Owner(ms, b)], b, a) by {
        assert mid[s1] == a;
      }
    }
  }

  // ---------------------------------------------------------------- interleaved handlers

  /** The slots, and the assignments that have passed the check and are not stored yet. */
  datatype Policy = Policy(slots: Slots, pending: multiset<(Slot, string)>)

  /** The sections of the handlers that hold the lock. */
  datatype Section =
    | Check(slot: Slot, id: string)
    | Store(slot: Slot, id: string)
    | Empty(slot: Slot)
    | EmptyAll

  const IDLE := Policy(map[], multiset{})

  function Turn(ms: seq<Manifest>, p: Policy, x: Section): Policy {
    match x
    case Check(slot, id) =>
      if id != "" && Allowed(ms, p.slots, id) then p.(pending := p.pending + multiset{(slot, id)}) else p
    case Store(slot, id) =>
      if (slot, id) in p.pending then Policy(p.slots[slot := id], p.pending - multiset{(slot, id)}) else p
    case Empty(slot) => p.(slots := p.slots - {slot})
    case EmptyAll => p.(slots := map[])
  }

  /** The check would still allow what is stored, with its slot empty. */
  ghost predicate Timely(ms: seq<Manifest>, p: Policy, x: Section) {
    x.Store? && (x.slot, x.id) in p.pending ==> Allowed(ms, p.slots - {x.slot}, x.id)
  }

  ghost predicate TimelyAlong(ms: seq<Manifest>, p: Policy, xs: seq<Section>)
    decreases |xs|
  {
    xs == [] || (Timely(ms, p, xs[0]) && TimelyAlong(ms, Turn(ms, p, xs[0]), xs[1..]))
  }

  /** Exclusive after every section of the run. */
  ghost predicate ExclusiveAlong(ms: seq<Manifest>, p: Policy, xs: seq<Section>)
    decreases |xs|
  {
    xs == [] || (Exclusive(ms, Turn(ms, p, xs[0]).slots) && ExclusiveAlong(ms, Turn(ms, p, xs[0]), xs[1..]))
  }

  lemma TurnExactly(ms: seq<Manifest>, p: Policy, x: Section)
    requires UniqueIds(ms) && Exclusive(ms, p.slots)
    ensures Exclusive(ms, Turn(ms, p, x).slots) <==> Timely(ms, p, x)
  {
    hide Clash, UniqueIds, Allowed;
    match x {
      case Store(slot, id) => StoreExactly(ms, p.slots, slot, id);
      case _ =>
    }
  }

  /** Over every interleaving the slots stay exclusive exactly when every store is still allowed at its moment. */
  lemma {:induction false} InterleavedExactly(ms: seq<Manifest>, p: Policy, xs: seq<Section>)
    requires UniqueIds(ms) && Exclusive(ms, p.slots)
    ensures ExclusiveAlong(ms, p, xs) <==> TimelyAlong(ms, p, xs)
    decreases |xs|
  {
    hide UniqueIds, Exclusive, Timely, Turn;
    if xs == [] {
    } else {
      TurnExactly(ms, p, xs[0]);
      if Timely(ms, p, xs[0]) {
        InterleavedExactly(ms, Turn(ms, p, xs[0]), xs[1..]);
      }
    }
  }

  /** No check begins while another assignment is between its check and its store. */
  ghost predicate OneAtATime(ms: seq<Manifest>, p: Policy, xs: seq<Section>)
    decreases |xs|
  {
    xs == [] || ((xs[0].Check? ==> p.pending == multiset{}) && OneAtATime(ms, Turn(ms, p, xs[0]), xs[1..]))
  }

  ghost predicate PendingAllowed(ms: seq<Manifest>, p: Policy) {
    |p.pending| <= 1 && forall q :: q in p.pending ==> Allowed(ms, p.slots, q.1)
  }

  lemma AllowedShrinks(ms: seq<Manifest>, slots: Slots, fewer: Slots, id: string)
    requires Allowed(ms, slots, id) && forall s :: s in fewer ==> s in slots && fewer[s] == slots[s]
    ensures Allowed(ms, fewer, id)
  {
    hide Clash;
  }

  lemma TurnPending(ms: seq<Manifest>, p: Policy, x: Section)
    requires PendingAllowed(ms, p) && (x.Check? ==> p.pending == multiset{})
    ensures PendingAllowed(ms, Turn(ms, p, x)) && Timely(ms, p, x)
  {
    hide Allowed;
    match x {
      case Check(slot, id) =>
      case Store(slot, id) =>
        if (slot, id) in p.pending {
          AllowedShrinks(ms, p.slots, p.slots - {slot}, id);
          var rest := p.pending - multiset{(slot, id)};
          assert p.pending == rest + multiset{(slot, id)};
          assert |rest| == 0 && rest == multiset{};
        }
      case Empty(slot) =>
        forall q | q in p.pending ensures Allowed(ms, p.slots - {slot}, q.1) {
          AllowedShrinks(ms, p.slots, p.slots - {slot}, q.1);
        }
      case EmptyAll =>
        forall q | q in p.pending ensures Allowed(ms, map[], q.1) {
          AllowedShrinks(ms, p.slots, map[], q.1);
        }
    }
  }

  lemma {:induction false} OneAtATimeTimely(ms: seq<Manifest>, p: Policy, xs: seq<Section>)
    requires OneAtATime(ms, p, xs) && PendingAllowed(ms, p)
    ensures TimelyAlong(ms, p, xs)
    decreases |xs|
  {
    hide PendingAllowed, Timely, Turn;
    if xs == [] {
    } else {
      TurnPending(ms, p, xs[0]);
      OneAtATimeTimely(ms, Turn(ms, p, xs[0]), xs[1..]);
    }
  }

  /** So assignments that do not overlap keep the slots exclusive, whatever is emptied in between. */
  lemma OneAtATimeExclusive(ms: seq<Manifest>, xs: seq<Section>)
    requires UniqueIds(ms) && OneAtATime(ms, IDLE, xs)
    ensures ExclusiveAlong(ms, IDLE, xs)
  {
    hide UniqueIds, OneAtATime, ExclusiveAlong, TimelyAlong;
    OneAtATimeTimely(ms, IDLE, xs);
    InterleavedExactly(ms, IDLE, xs);
  }

  lemma OwnersMeet(ms: seq<Manifest>, a: string, b: string)
    requires UniqueIds(ms)
    ensures forall i :: 0 <= i < |ms| && Clash(ms[i], a, b) ==> Owner(ms, a) == i && Owner(ms, b) == i
  {
    hide GroupIn;
  }

  /** Which slots hold the active tasks does not matter to the check. */
  lemma AllowedByValues(ms: seq<Manifest>, slots: Slots, id: string)
    ensures Allowed(ms, slots, id) <==>
            (Owner(ms, id) < |ms| ==> forall a :: a in slots.Values ==> !Clash(ms[Owner(ms, id)], id, a))
  {
    hide Clash;
    if Allowed(ms, slots, id) && Owner(ms, id) < |ms| {
      forall a | a in slots.Values ensures !Clash(ms[Owner(ms, id)], id, a) {
        var s :| s in slots && slots[s] == a;
      }
    }
    assert forall s :: s in slots ==> slots[s] in slots.Values;
  }

  // ---------------------------------------------------------------- the handlers

  class GroupGuard {
    /** Registered manifests, in the order of the session dictionary. */
    const manifests: seq<Manifest>
    var activeTasksBySlot: Slots

    constructor (ms: seq<Manifest>)
      ensures manifests == ms && activeTasksBySlot == map[]
    {
      manifests, activeTasksBySlot := ms, map[];
    }

    method LocateOwner(id: string) returns (owner: Option<(Manifest, Task)>)
      ensures owner.Some? <==> Owner(manifests, id) < |manifests|
      ensures owner.Some? ==>
                var m := manifests[Owner(manifests, id)];
                owner.value.0 == m && owner.value.1 == m.tasks[TaskAt(m.tasks, id)]
    {
      for i := 0 to |manifests|
        invariant forall k :: 0 <= k < i ==> !Lists(manifests[k], id)
      {
        var tasks := manifests[i].tasks;
        for j := 0 to |tasks|
          invariant forall k :: 0 <= k < j ==> tasks[k].id != id
        {
          if tasks[j].id == id {
            assert Lists(manifests[i], id);
            assert Owner(manifests, id) == i;
            return Some((manifests[i], tasks[j]));
          }
        }
      }
      return None;
    }

    /** Allowed or not; a refusal names an active task of the same provider in another group. */
    method CheckGroupExclusivity(id: string) returns (allowed: bool, conflict: Option<string>)
      ensures allowed <==> Allowed(manifests, activeTasksBySlot, id)
      ensures allowed <==> conflict.None?
      ensures conflict.Some? ==>
                && conflict.value in activeTasksBySlot.Values && Owner(manifests, id) < |manifests|
                && Clash(manifests[Owner(manifests, id)], id, conflict.value)
      ensures !allowed <==> Conflicting(manifests, activeTasksBySlot, id)
      ensures conflict.Some? ==> exists m :: m in manifests && GroupsDiffer(m, id, conflict.value)
    {
      hide Allowed, TaskAt, Conflicting, GroupsDiffer;
      AllowedByField(manifests, activeTasksBySlot, id);
      AllowedByValues(manifests, activeTasksBySlot, id);
      var owner := LocateOwner(id);
      if owner.None? {
        return true, None;
      }
      var m, requested := owner.value.0, owner.value.1;
      if forall t :: t in m.tasks ==> t.group == "" {
        assert forall a :: Lists(m, a) ==> GroupIn(m, a) == DEFAULT_GROUP;
        return true, None;
      }
      var group := GroupOf(requested);
      var ids := set t | t in m.tasks :: t.id;
      var todo := activeTasksBySlot.Values;
      while todo != {}
        invariant todo <= activeTasksBySlot.Values
        invariant forall a :: a in activeTasksBySlot.Values - todo ==> !Clash(m, id, a)
      {
        var active :| active in todo;
        todo := todo - {active};
        if active !in ids {
          assert !Lists(m, active);
          continue;
        }
        for j := 0 to |m.tasks|
          invariant forall k :: 0 <= k < j ==> m.tasks[k].id != active
        {
          if m.tasks[j].id == active {
            assert m.tasks[j] in m.tasks && TaskAt(m.tasks, active) == j;
            if GroupOf(m.tasks[j]) != group {
              ClashIsByField(m, id, active);
              return false, Some(active);
            }
            break;
          }
        }
      }
      return true, None;
    }

    /** The section of `task_assigned` that stores, some time after the check. */
    method StoreTask(slot: Slot, id: string)
      modifies this
      ensures activeTasksBySlot == old(activeTasksBySlot)[slot := id]
      ensures UniqueIds(manifests) && old(Exclusive(manifests, activeTasksBySlot)) ==>
                (Exclusive(manifests, activeTasksBySlot) <==> Allowed(manifests, old(activeTasksBySlot) - {slot}, id))
    {
      if UniqueIds(manifests) && Exclusive(manifests, activeTasksBySlot) {
        StoreExactly(manifests, activeTasksBySlot, slot, id);
      }
      activeTasksBySlot := activeTasksBySlot[slot := id];
    }

    /** `task_assigned` with no other assignment between its check and its store. */
    method TaskAssigned(slot: Option<Slot>, id: string) returns (accepted: bool)
      modifies this
      ensures activeTasksBySlot ==
              if slot.Some? then Next(manifests, old(activeTasksBySlot), Assign(slot.value, id))
                  else old(activeTasksBySlot)
      ensures accepted <==> slot.Some? && id != "" && Allowed(manifests, old(activeTasksBySlot), id)
      ensures accepted <==> slot.Some? && id != "" && !Conflicting(manifests, old(activeTasksBySlot), id)
      ensures activeTasksBySlot == if accepted then old(activeTasksBySlot)[slot.value := id] else old(activeTasksBySlot)
      ensures old(ExclusiveByOwner(manifests, activeTasksBySlot)) ==> ExclusiveByOwner(manifests, activeTasksBySlot)
    {
      if slot.None? || id == "" {
        return false;
      }
      AllowedByField(manifests, activeTasksBySlot, id);
      hide Conflicting;
      var allowed, _ := CheckGroupExclusivity(id);
      if ExclusiveByOwner(manifests, activeTasksBySlot) {
        NextExclusiveByOwner(manifests, activeTasksBySlot, Assign(slot.value, id));
      }
      if !allowed {
        return false;
      }
      StoreTask(slot.value, id);
      return true;
    }

    method TaskUnassigned(slot: Option<Slot>) returns (removed: Option<string>)
      modifies this
      ensures activeTasksBySlot == if slot.Some? then old(activeTasksBySlot) - {slot.value} else old(activeTasksBySlot)
      ensures slot.Some? ==> activeTasksBySlot == Next(manifests, old(activeTasksBySlot), Unassign(slot.value))
      ensures removed.Some? <==> slot.Some? && slot.value in old(activeTasksBySlot)
      ensures removed.Some? ==> removed.value == old(activeTasksBySlot)[slot.value]
    {
      if slot.None? || slot.value !in activeTasksBySlot {
        return None;
      }
      removed := Some(activeTasksBySlot[slot.value]);
      activeTasksBySlot := activeTasksBySlot - {slot.value};
    }

    /** When the last workbench disconnects. */
    method ClearIfLast(remaining: nat) returns (cleared: Slots)
      modifies this
      ensures activeTasksBySlot == if remaining == 0 then map[] else old(activeTasksBySlot)
      ensures remaining == 0 ==> activeTasksBySlot == Next(manifests, old(activeTasksBySlot), ClearAll)
      ensures cleared == old(activeTasksBySlot) - activeTasksBySlot.Keys
    {
      cleared := map[];
      if remaining == 0 && activeTasksBySlot != map[] {
        cleared := activeTasksBySlot;
        activeTasksBySlot := map[];
      }
    }
  }
}
