/**
 The bridge daemon's node table and the shared-memory channels its nodes own. The control
 thread and the heartbeat thread interleave; each lock acquisition, channel creation and
 unlink is one step.
 */
module Bridge {

  type Channel = nat

  /** An entry of the insertion-ordered dict `shm_channels`. */
  datatype Slot = Slot(task: string, channel: Channel)

  /** `instance` numbers the `ConnectedNode` objects in the order they are made. */
  datatype Node = Node(nodeId: string, instance: nat, slots: seq<Slot>)

  /** What the control thread is in the middle of. */
  datatype Control =
    | Idle
    | Replacing(left: seq<Channel>, nodeId: string, tasks: seq<string>)
    | Building(node: Node, todo: seq<string>)
    | Releasing(left: seq<Channel>)

  /** What the heartbeat thread is in the middle of. */
  datatype Heart =
    | Asleep
    | Reaping(dead: seq<string>)
    | Cleaning(left: seq<Channel>, dead: seq<string>)

  datatype State = State(
    nodes: map<string, Node>,
    control: Control,
    heart: Heart,
    instances: nat,
    created: nat,
    unlinked: seq<Channel>)

  datatype Event =
    | Register(nodeId: string, tasks: seq<string>)
    | Deregister(nodeId: string)
    | ControlStep(createOk: bool)
    | Collect(dead: seq<string>)
    | HeartStep

  function Channels(slots: seq<Slot>): (cs: seq<Channel>)
    ensures |cs| == |slots|
    ensures forall i :: 0 <= i < |slots| ==> cs[i] == slots[i].channel
  {
    seq(|slots|, i requires 0 <= i < |slots| => slots[i].channel)
  }

  predicate HasTask(slots: seq<Slot>, task: string) {
    exists i :: 0 <= i < |slots| && slots[i].task == task
  }

  /** Assignment to a dict key: in place when the key exists, else at the end. */
  function SetSlot(slots: seq<Slot>, task: string, channel: Channel): seq<Slot> {
    if slots == [] then [Slot(task, channel)]
    else if slots[0].task == task then [Slot(task, channel)] + slots[1..]
    else [slots[0]] + SetSlot(slots[1..], task, channel)
  }

  /** A registration goes on with a new node object. */
  function StartBuilding(s: State, id: string, tasks: seq<string>): State {
    s.(control := Building(Node(id, s.instances, []), tasks), instances := s.instances + 1)
  }

  function StepControl(s: State, createOk: bool): State {
    match s.control
    case Idle => s
    case Replacing(left, id, tasks) =>
      if left == [] then StartBuilding(s, id, tasks)
      else s.(control := Replacing(left[1..], id, tasks), unlinked := s.unlinked + [left[0]])
    case Releasing(left) =>
      if left == [] then s.(control := Idle)
      else s.(control := Releasing(left[1..]), unlinked := s.unlinked + [left[0]])
    case Building(node, todo) =>
      if todo == [] then s.(control := Idle, nodes := s.nodes[node.nodeId := node])
      else if todo[0] == "" || !createOk then s.(control := Building(node, todo[1..]))
      else s.(control := Building(node.(slots := SetSlot(node.slots, todo[0], s.created)), todo[1..]),
              created := s.created + 1)
  }

  function StepHeart(s: State): State {
    match s.heart
    case Asleep => s
    case Cleaning(left, dead) =>
      if left == [] then s.(heart := Reaping(dead))
      else s.(heart := Cleaning(left[1..], dead), unlinked := s.unlinked + [left[0]])
    case Reaping(dead) =>
      if dead == [] then s.(heart := Asleep)
      else if dead[0] in s.nodes then
        s.(heart := Cleaning(Channels(s.nodes[dead[0]].slots), dead[1..]), nodes := s.nodes - {dead[0]})
      else s.(heart := Reaping(dead[1..]))
  }

  /** A thread that is busy ignores a request meant for it when idle. */
  function Next(s: State, e: Event): State {
    match e
    case Register(id, tasks) =>
      if !s.control.Idle? then s
      else if id in s.nodes then
        s.(control := Replacing(Channels(s.nodes[id].slots), id, tasks), nodes := s.nodes - {id})
      else StartBuilding(s, id, tasks)
    case Deregister(id) =>
      if !s.control.Idle? || id !in s.nodes then s
      else s.(control := Releasing(Channels(s.nodes[id].slots)), nodes := s.nodes - {id})
    case ControlStep(ok) => StepControl(s, ok)
    case Collect(dead) => if s.heart.Asleep? then s.(heart := Reaping(dead)) else s
    case HeartStep => StepHeart(s)
  }

  const START := State(map[], Idle, Asleep, 0, 0, [])

  function Run(s: State, events: seq<Event>): State
    decreases |events|
  {
    if events == [] then s else Run(Next(s, events[0]), events[1..])
  }

  // ---------------------------------------------------------------- ownership

  datatype Holder = InConstruction | Registered(nodeId: string) | ByControl | ByHeart | Gone

  ghost predicate HeldBy(s: State, c: Channel, h: Holder) {
    match h
    case InConstruction => s.control.Building? && c in Channels(s.control.node.slots)
    case Registered(id) => id in s.nodes && c in Channels(s.nodes[id].slots)
    case ByControl => (s.control.Replacing? || s.control.Releasing?) && c in s.control.left
    case ByHeart => s.heart.Cleaning? && c in s.heart.left
    case Gone => c in s.unlinked
  }

  ghost predicate NoRepeats<T>(xs: seq<T>) {
    forall i, j :: 0 <= i < j < |xs| ==> xs[i] != xs[j]
  }

  /** Task ids of one manifest are distinct, apart from missing ones. */
  ghost predicate DistinctTasks(tasks: seq<string>) {
    forall i, j :: 0 <= i < j < |tasks| && tasks[i] != "" ==> tasks[i] != tasks[j]
  }

  ghost predicate Held(s: State, c: Channel) {
    exists h :: HeldBy(s, c, h)
  }

  /** Every created channel has exactly one holder, and nothing else is held. */
  ghost predicate OneHolder(s: State) {
    && (forall c :: 0 <= c < s.created ==> Held(s, c))
    && (forall c: Channel, h :: HeldBy(s, c, h) ==> c < s.created)
    && (forall c: Channel, h, h' :: HeldBy(s, c, h) && HeldBy(s, c, h') ==> h == h')
  }

  ghost predicate NoneTwice(s: State) {
    && NoRepeats(s.unlinked)
    && (forall id :: id in s.nodes ==> NoRepeats(Channels(s.nodes[id].slots)))
    && (s.control.Building? ==> NoRepeats(Channels(s.control.node.slots)))
    && (s.control.Replacing? || s.control.Releasing? ==> NoRepeats(s.control.left))
    && (s.heart.Cleaning? ==> NoRepeats(s.heart.left))
  }

  /** One holder for every channel, and none of them listed twice. */
  ghost predicate Owned(s: State) {
    OneHolder(s) && NoneTwice(s)
  }

  /** The name about to be stored is free. */
  ghost predicate NameFree(s: State) {
    && (s.control.Replacing? ==> s.control.nodeId !in s.nodes)
    && (s.control.Building? ==> s.control.node.nodeId !in s.nodes)
  }

  /** The tasks still to come are new to the node. */
  ghost predicate TasksNew(s: State) {
    && (s.control.Replacing? ==> DistinctTasks(s.control.tasks))
    && (s.control.Building? ==>
          && DistinctTasks(s.control.todo)
          && forall t :: t in s.control.todo && t != "" ==> !HasTask(s.control.node.slots, t))
  }

  ghost predicate Inv(s: State) {
    Owned(s) && NameFree(s) && TasksNew(s)
  }

  ghost predicate Distinct(e: Event) {
    e.Register? ==> DistinctTasks(e.tasks)
  }

  /** The step creates a channel for a task the node already has one for: the dict entry is overwritten. */
  predicate Overwrites(s: State, e: Event) {
    && e == ControlStep(true) && s.control.Building?
    && s.control.todo != [] && s.control.todo[0] != "" && HasTask(s.control.node.slots, s.control.todo[0])
  }

  // ---------------------------------------------------------------- preservation

  lemma {:induction false} SetSlotNew(slots: seq<Slot>, task: string, channel: Channel)
    ensures !HasTask(slots, task) ==> SetSlot(slots, task, channel) == slots + [Slot(task, channel)]
  {
    if slots != [] && !HasTask(slots, task) {
      HasTaskCons(slots);
      hide HasTask;
      SetSlotNew(slots[1..], task, channel);
      assert [slots[0]] + (slots[1..] + [Slot(task, channel)]) == slots + [Slot(task, channel)];
    }
  }

  lemma HeldElsewhere(s: State, c: Channel, h: Holder, h': Holder)
    requires OneHolder(s) && HeldBy(s, c, h) && h != h'
    ensures !HeldBy(s, c, h')
  {
  }

  /** Handing a popped node's channels to a thread, or moving one of them to the unlinked. */
  lemma UnlinkHead(s: State, s': State, left: seq<Channel>, h: Holder)
    requires OneHolder(s) && left != [] && NoRepeats(left) && NoRepeats(s.unlinked)
    requires h == ByControl || h == ByHeart
    requires forall c :: HeldBy(s, c, h) <==> c in left
    requires forall c :: HeldBy(s', c, h) <==> c in left[1..]
    requires s'.created == s.created && s'.unlinked == s.unlinked + [left[0]]
    requires forall c, k :: k != h && k != Gone ==> (HeldBy(s', c, k) <==> HeldBy(s, c, k))
    ensures OneHolder(s') && NoRepeats(s'.unlinked) && NoRepeats(left[1..])
  {
    assert forall c :: c in left <==> c == left[0] || c in left[1..];
    assert left[0] !in left[1..];
    HeldElsewhere(s, left[0], h, Gone);
    assert forall c :: HeldBy(s', c, Gone) <==> HeldBy(s, c, Gone) || c == left[0];
    forall c | 0 <= c < s'.created ensures Held(s', c) {
      assert Held(s, c);
      var k :| HeldBy(s, c, k);
      if c == left[0] {
        assert HeldBy(s', c, Gone);
      } else {
        assert HeldBy(s', c, k);
      }
    }
  }

  /** A pop moves the node's channels from the table to the popping thread. */
  lemma PopMoves(s: State, s': State, id: string, h: Holder)
    requires OneHolder(s) && id in s.nodes
    requires h == ByControl || h == ByHeart
    requires forall c :: !HeldBy(s, c, h)
    requires s'.nodes == s.nodes - {id} && s'.created == s.created && s'.unlinked == s.unlinked
    requires forall c :: HeldBy(s', c, h) <==> c in Channels(s.nodes[id].slots)
    requires forall c, k: Holder :: k != h && !k.Registered? ==> (HeldBy(s', c, k) <==> HeldBy(s, c, k))
    ensures OneHolder(s')
  {
    assert forall c, k: Holder :: k.Registered? && k.nodeId != id ==> (HeldBy(s', c, k) <==> HeldBy(s, c, k));
    assert forall c :: HeldBy(s', c, h) <==> HeldBy(s, c, Registered(id));
    assert forall c :: !HeldBy(s', c, Registered(id));
    forall c | 0 <= c < s'.created ensures Held(s', c) {
      assert Held(s, c);
      var k :| HeldBy(s, c, k);
      assert if k == Registered(id) then HeldBy(s', c, h) else HeldBy(s', c, k);
    }
  }

  /** Steps that only rename where a thread is leave every holding alone. */
  lemma SameHoldings(s: State, s': State)
    requires OneHolder(s) && s'.created == s.created
    requires forall c, h :: HeldBy(s', c, h) <==> HeldBy(s, c, h)
    ensures OneHolder(s')
  {
    forall c | 0 <= c < s'.created ensures Held(s', c) {
      assert Held(s, c);
      var h :| HeldBy(s, c, h);
      assert HeldBy(s', c, h);
    }
  }

  lemma NoRepeatsSnoc<T>(xs: seq<T>, x: T)
    requires NoRepeats(xs) && x !in xs
    ensures NoRepeats(xs + [x])
  {
    assert forall i :: 0 <= i < |xs| ==> xs[i] in xs;
  }

  lemma SetSlotChannels(slots: seq<Slot>, task: string, channel: Channel)
    ensures forall c :: c in Channels(SetSlot(slots, task, channel)) ==> c == channel || c in Channels(slots)
  {
    if slots == [] {
    } else if slots[0].task == task {
      var p := SetSlot(slots, task, channel);
      assert forall i :: 0 < i < |p| ==> p[i] == slots[i];
    } else {
      var rest := slots[1..];
      SetSlotChannels(rest, task, channel);
      assert Channels(slots) == [slots[0].channel] + Channels(rest);
      assert Channels(SetSlot(slots, task, channel)) == [slots[0].channel] + Channels(SetSlot(rest, task, channel));
    }
  }

  /** Overwriting an entry drops its channel. */
  lemma {:induction false} SetSlotDrops(slots: seq<Slot>, task: string, channel: Channel) returns (lost: Channel)
    requires HasTask(slots, task) && NoRepeats(Channels(slots)) && channel !in Channels(slots)
    ensures lost in Channels(slots) && lost !in Channels(SetSlot(slots, task, channel))
  {
    var head, rest := slots[0], slots[1..];
    HasTaskCons(slots);
    hide HasTask;
    ChannelsCons(head, rest);
    assert slots == [head] + rest;
    NoRepeatsHead(Channels(slots));
    assert Channels(slots)[1..] == Channels(rest);
    if head.task == task {
      lost := head.channel;
      ChannelsCons(Slot(task, channel), rest);
    } else {
      lost := SetSlotDrops(rest, task, channel);
      ChannelsCons(head, SetSlot(rest, task, channel));
    }
  }

  lemma ChannelsCons(head: Slot, rest: seq<Slot>)
    ensures Channels([head] + rest) == [head.channel] + Channels(rest)
  {
  }

  lemma NoRepeatsHead<T>(xs: seq<T>)
    requires NoRepeats(xs) && xs != []
    ensures NoRepeats(xs[1..]) && xs[0] !in xs[1..]
  {
  }

  lemma CreateOwned(s: State)
    requires Owned(s) && s.control.Building? && s.control.todo != [] && s.control.todo[0] != ""
    requires !HasTask(s.control.node.slots, s.control.todo[0])
    ensures Owned(StepControl(s, true))
  {
    var s' := StepControl(s, true);
    var node, todo, c0 := s.control.node, s.control.todo, s.created;
    SetSlotNew(node.slots, todo[0], c0);
    assert s'.control.node.slots == node.slots + [Slot(todo[0], c0)];
    assert Channels(s'.control.node.slots) == Channels(node.slots) + [c0];
    assert forall c, h :: HeldBy(s', c, h) <==> HeldBy(s, c, h) || (c == c0 && h == InConstruction);
    assert !exists h :: HeldBy(s, c0, h);
    forall c | 0 <= c < s'.created ensures Held(s', c) {
      if c == c0 {
        assert HeldBy(s', c, InConstruction);
      } else {
        assert Held(s, c);
        var h :| HeldBy(s, c, h);
        assert HeldBy(s', c, h);
      }
    }
    assert forall c :: c in Channels(node.slots) ==> HeldBy(s, c, InConstruction);
    NoRepeatsSnoc(Channels(node.slots), c0);
  }

  /** Storing a finished node never overwrites one. */
  lemma StoreOwned(s: State)
    requires Owned(s) && NameFree(s) && s.control.Building? && s.control.todo == []
    ensures Owned(StepControl(s, true)) && StepControl(s, true) == StepControl(s, false)
    ensures s.control.node.nodeId !in s.nodes
  {
    var s' := StepControl(s, true);
    var node := s.control.node;
    assert forall c, h :: h != InConstruction && h != Registered(node.nodeId) ==>
           (HeldBy(s', c, h) <==> HeldBy(s, c, h));
    assert forall c :: HeldBy(s', c, Registered(node.nodeId)) <==> HeldBy(s, c, InConstruction);
    forall c | 0 <= c < s'.created ensures Held(s', c) {
      assert Held(s, c);
      var h :| HeldBy(s, c, h);
      assert if h == InConstruction then HeldBy(s', c, Registered(node.nodeId)) else HeldBy(s', c, h);
    }
  }

  lemma ControlStepOwned(s: State, ok: bool)
    requires Owned(s) && NameFree(s) && !Overwrites(s, ControlStep(ok))
    ensures Owned(StepControl(s, ok))
  {
    var s' := StepControl(s, ok);
    match s.control {
      case Idle =>
      case Replacing(left, id, tasks) =>
        if left == [] {
          SameHoldings(s, s');
        } else {
          UnlinkHead(s, s', left, ByControl);
        }
      case Releasing(left) =>
        if left == [] {
          SameHoldings(s, s');
        } else {
          UnlinkHead(s, s', left, ByControl);
        }
      case Building(node, todo) =>
        if todo == [] {
          StoreOwned(s);
        } else if todo[0] == "" || !ok {
          SameHoldings(s, s');
        } else {
          CreateOwned(s);
        }
    }
  }

  lemma HeartStepOwned(s: State)
    requires Owned(s)
    ensures Owned(StepHeart(s))
  {
    var s' := StepHeart(s);
    match s.heart {
      case Asleep =>
      case Cleaning(left, dead) =>
        if left == [] {
          SameHoldings(s, s');
        } else {
          UnlinkHead(s, s', left, ByHeart);
        }
      case Reaping(dead) =>
        if dead != [] && dead[0] in s.nodes {
          PopMoves(s, s', dead[0], ByHeart);
        } else {
          SameHoldings(s, s');
        }
    }
  }

  lemma NextOwned(s: State, e: Event)
    requires Owned(s) && NameFree(s) && !Overwrites(s, e)
    ensures Owned(Next(s, e))
  {
    var s' := Next(s, e);
    match e {
      case Register(id, tasks) =>
        if s.control.Idle? {
          if id in s.nodes {
            PopMoves(s, s', id, ByControl);
          } else {
            SameHoldings(s, s');
          }
        }
      case Deregister(id) =>
        if s.control.Idle? && id in s.nodes {
          PopMoves(s, s', id, ByControl);
        }
      case ControlStep(ok) => ControlStepOwned(s, ok);
      case Collect(dead) => SameHoldings(s, s');
      case HeartStep => HeartStepOwned(s);
    }
  }

  lemma NextNameFree(s: State, e: Event)
    requires NameFree(s)
    ensures NameFree(Next(s, e))
  {
    hide SetSlot, Channels;
  }

  lemma NextTasksNew(s: State, e: Event)
    requires TasksNew(s) && Distinct(e)
    ensures TasksNew(Next(s, e)) && !Overwrites(s, e)
  {
    hide DistinctTasks, HasTask, Channels;
    EmptyHasNone();
    if e.ControlStep? && s.control.Building? && s.control.todo != [] {
      var todo := s.control.todo;
      DistinctCons(todo);
      SetSlotTasks(s.control.node.slots, todo[0], s.created);
      assert forall t :: t in todo[1..] ==> t in todo;
    }
  }

  lemma EmptyHasNone()
    ensures forall t :: !HasTask([], t)
  {
  }

  lemma NextInv(s: State, e: Event)
    requires Inv(s) && Distinct(e)
    ensures Inv(Next(s, e))
  {
    hide Owned, NameFree, TasksNew, Next;
    NextTasksNew(s, e);
    NextNameFree(s, e);
    NextOwned(s, e);
  }

  lemma {:induction false} RunInv(s: State, events: seq<Event>)
    requires Inv(s) && forall e :: e in events ==> Distinct(e)
    ensures Inv(Run(s, events))
    decreases |events|
  {
    if events == [] {
    } else {
      hide Inv, Next, Distinct;
      assert events[0] in events && forall e :: e in events[1..] ==> e in events;
      NextInv(s, events[0]);
      RunInv(Next(s, events[0]), events[1..]);
    }
  }

  /**
   Over every interleaving: each created channel has exactly one owner or is unlinked, none
   is unlinked twice or while its node is registered, and a node is stored under a free name.
   */
  lemma ChannelOwnership(events: seq<Event>)
    requires forall e :: e in events ==> Distinct(e)
    ensures var s := Run(START, events);
            && OneHolder(s) && NoRepeats(s.unlinked)
            && (forall id, c :: id in s.nodes && c in s.unlinked ==> c !in Channels(s.nodes[id].slots))
            && (s.control.Building? ==> s.control.node.nodeId !in s.nodes)
  {
    assert Inv(START);
    RunInv(START, events);
    var s := Run(START, events);
    forall id, c | id in s.nodes && c in s.unlinked ensures c !in Channels(s.nodes[id].slots) {
      assert HeldBy(s, c, Gone);
      HeldElsewhere(s, c, Gone, Registered(id));
    }
  }

  /**
   Once both threads are at rest nothing is in limbo: a created channel has been unlinked
   exactly when no registered node holds it, so nothing leaks.
   */
  lemma RestLeaksNothing(events: seq<Event>, c: Channel)
    requires forall e :: e in events ==> Distinct(e)
    requires var s := Run(START, events); s.control.Idle? && !s.heart.Cleaning? && c < s.created
    ensures var s := Run(START, events);
            c in s.unlinked <==> forall id :: id in s.nodes ==> c !in Channels(s.nodes[id].slots)
  {
    hide Run, NoRepeats;
    ChannelOwnership(events);
    var s := Run(START, events);
    assert Held(s, c);
    var h :| HeldBy(s, c, h);
    if c in s.unlinked {
      assert HeldBy(s, c, Gone);
      forall id | id in s.nodes ensures c !in Channels(s.nodes[id].slots) {
        HeldElsewhere(s, c, Gone, Registered(id));
      }
    } else {
      assert h.Registered?;
    }
  }

  // ---------------------------------------------------------------- what does not hold

  lemma {:induction false} SetSlotTasks(slots: seq<Slot>, task: string, channel: Channel)
    ensures |SetSlot(slots, task, channel)| == if HasTask(slots, task) then |slots| else |slots| + 1
    ensures forall t :: HasTask(SetSlot(slots, task, channel), t) <==> t == task || HasTask(slots, t)
  {
    var p := SetSlot(slots, task, channel);
    if slots == [] {
      assert p[0].task == task;
    } else {
      SetSlotTasks(slots[1..], task, channel);
      HasTaskCons(slots);
      HasTaskCons(p);
      assert p[1..] == if slots[0].task == task then slots[1..] else SetSlot(slots[1..], task, channel);
    }
  }

  lemma HasTaskCons(slots: seq<Slot>)
    requires slots != []
    ensures forall t :: HasTask(slots, t) <==> slots[0].task == t || HasTask(slots[1..], t)
  {
    forall t | HasTask(slots, t) ensures slots[0].task == t || HasTask(slots[1..], t) {
      var i :| 0 <= i < |slots| && slots[i].task == t;
      assert i > 0 ==> slots[1..][i - 1].task == t;
    }
    forall t | HasTask(slots[1..], t) ensures HasTask(slots, t) {
      var i :| 0 <= i < |slots| - 1 && slots[1..][i].task == t;
      assert slots[i + 1].task == t;
    }
  }

  lemma DistinctCons(tasks: seq<string>)
    requires tasks != []
    ensures DistinctTasks(tasks) <==> DistinctTasks(tasks[1..]) && (tasks[0] == "" || tasks[0] !in tasks[1..])
  {
    var rest := tasks[1..];
    if DistinctTasks(rest) && (tasks[0] == "" || tasks[0] !in rest) {
      forall i, j | 0 <= i < j < |tasks| && tasks[i] != "" ensures tasks[i] != tasks[j] {
        assert tasks[j] == rest[j - 1];
        if i > 0 {
          assert tasks[i] == rest[i - 1];
        }
      }
    }
    if DistinctTasks(tasks) {
      assert forall i :: 0 <= i < |rest| ==> rest[i] == tasks[i + 1];
    }
  }

  /** A channel that exists, is not unlinked, and belongs to nobody: nothing will ever unlink it. */
  ghost predicate Leaked(s: State, c: Channel) {
    c < s.created && !Held(s, c)
  }

  /** A channel in the hands of a thread or a node before the step. */
  ghost predicate HeldIn(s: State, c: Channel) {
    || HeldBy(s, c, InConstruction) || HeldBy(s, c, ByControl) || HeldBy(s, c, ByHeart) || HeldBy(s, c, Gone)
    || exists id :: HeldBy(s, c, Registered(id))
  }

  lemma ControlHolderBefore(s: State, ok: bool, c: Channel, h: Holder)
    requires c < s.created && HeldBy(StepControl(s, ok), c, h)
    ensures HeldIn(s, c)
  {
    assert forall xs: seq<Channel> :: xs != [] && c in xs[1..] ==> c in xs;
    if s.control.Building? && s.control.todo != [] {
      SetSlotChannels(s.control.node.slots, s.control.todo[0], s.created);
    }
    hide SetSlot;
    if h.Registered? {
      assert HeldBy(s, c, h) || HeldBy(s, c, InConstruction);
    }
  }

  lemma HeartHolderBefore(s: State, c: Channel, h: Holder)
    requires HeldBy(StepHeart(s), c, h)
    ensures HeldIn(s, c)
  {
    assert forall xs: seq<Channel> :: xs != [] && c in xs[1..] ==> c in xs;
    if h.Registered? {
      assert HeldBy(s, c, h);
    } else if s.heart.Reaping? && s.heart.dead != [] {
      assert HeldBy(s, c, h) || HeldBy(s, c, Registered(s.heart.dead[0]));
    }
  }

  lemma RequestHolderBefore(s: State, e: Event, c: Channel, h: Holder)
    requires !e.ControlStep? && !e.HeartStep? && HeldBy(Next(s, e), c, h)
    ensures HeldIn(s, c)
  {
    if h.Registered? {
      assert HeldBy(s, c, h);
    } else if h.ByControl? && (e.Register? || e.Deregister?) {
      assert HeldBy(s, c, h) || HeldBy(s, c, Registered(e.nodeId));
    } else {
      assert HeldBy(s, c, h);
    }
  }

  /** A step hands older channels on; it makes no holder for one that had none. */
  lemma HolderBefore(s: State, e: Event, c: Channel, h: Holder)
    requires c < s.created && HeldBy(Next(s, e), c, h)
    ensures Held(s, c)
  {
    assert HeldIn(s, c) by {
      hide HeldIn, StepControl, StepHeart;
      match e {
        case ControlStep(ok) => ControlHolderBefore(s, ok, c, h);
        case HeartStep => HeartHolderBefore(s, c, h);
        case _ => RequestHolderBefore(s, e, c, h);
      }
    }
    hide HeldBy, Next;
  }

  lemma LeakStays(s: State, e: Event, c: Channel)
    requires Leaked(s, c)
    ensures Leaked(Next(s, e), c)
  {
    hide HeldBy;
    assert Next(s, e).created >= s.created by { hide SetSlot, Channels; }
    forall h | HeldBy(Next(s, e), c, h) ensures false {
      HolderBefore(s, e, c, h);
    }
  }

  lemma {:induction false} LeakIsForever(s: State, events: seq<Event>, c: Channel)
    requires Leaked(s, c)
    ensures Leaked(Run(s, events), c)
    decreases |events|
  {
    if events == [] {
    } else {
      hide Leaked, Next;
      LeakStays(s, events[0], c);
      LeakIsForever(Next(s, events[0]), events[1..], c);
    }
  }

  lemma OverwriteLeaks(s: State) returns (c: Channel)
    requires Owned(s) && Overwrites(s, ControlStep(true))
    ensures Leaked(StepControl(s, true), c)
  {
    var slots, task, s' := s.control.node.slots, s.control.todo[0], StepControl(s, true);
    assert forall x :: x in Channels(slots) ==> HeldBy(s, x, InConstruction);
    assert s.created !in Channels(slots) by {
      assert !HeldBy(s, s.created, InConstruction);
    }
    c := SetSlotDrops(slots, task, s.created);
    assert HeldBy(s, c, InConstruction);
    assert s'.control.Building? && s'.control.node.slots == SetSlot(slots, task, s.created);
    hide SetSlot, Channels;
    forall h: Holder ensures !HeldBy(s', c, h) {
      if h != InConstruction {
        HeldElsewhere(s, c, InConstruction, h);
      }
    }
  }

  /** A creation keeps one holder per channel exactly when the node has no channel for the task yet. */
  lemma CreateExactly(s: State)
    requires Owned(s) && s.control.Building? && s.control.todo != [] && s.control.todo[0] != ""
    ensures OneHolder(StepControl(s, true)) <==> !HasTask(s.control.node.slots, s.control.todo[0])
  {
    if HasTask(s.control.node.slots, s.control.todo[0]) {
      var c := OverwriteLeaks(s);
      assert !Held(StepControl(s, true), c);
    } else {
      CreateOwned(s);
    }
  }

  ghost predicate NeverOverwrites(s: State, events: seq<Event>)
    decreases |events|
  {
    events == [] || (!Overwrites(s, events[0]) && NeverOverwrites(Next(s, events[0]), events[1..]))
  }

  /**
   Over every interleaving, with any task ids and any outcome of the creations: every
   channel has one holder at the end exactly when no step overwrote a dict entry.
   */
  lemma {:induction false} LeaksExactly(s: State, events: seq<Event>)
    requires Owned(s) && NameFree(s)
    ensures OneHolder(Run(s, events)) <==> NeverOverwrites(s, events)
    decreases |events|
  {
    if events == [] {
    } else {
      var s', rest := Next(s, events[0]), events[1..];
      if Overwrites(s, events[0]) {
        var c := OverwriteLeaks(s);
        LeakIsForever(s', rest, c);
        assert !Held(Run(s', rest), c);
      } else {
        hide Overwrites, NameFree, OneHolder, NoneTwice, Next;
        NextNameFree(s, events[0]);
        NextOwned(s, events[0]);
        LeaksExactly(s', rest);
      }
    }
  }

  /** The run stays inside one creation loop, and every creation in it succeeds. */
  ghost predicate Builds(s: State, events: seq<Event>)
    decreases |events|
  {
    && s.control.Building?
    && (events != [] ==>
          && (events[0].ControlStep? ==> events[0].createOk && s.control.todo != [])
          && Builds(Next(s, events[0]), events[1..]))
  }

  /** A creation step takes one task off the list; nothing else touches the node being built. */
  lemma BuildStep(s: State, e: Event)
    requires s.control.Building? && (e.ControlStep? ==> e.createOk && s.control.todo != [])
    ensures var s', todo := Next(s, e), s.control.todo;
            && s'.control.Building?
            && if !e.ControlStep? then s'.control == s.control
               else if todo[0] == "" then s'.control == Building(s.control.node, todo[1..])
               else
                 && s'.control.todo == todo[1..]
                 && s'.control.node.slots == SetSlot(s.control.node.slots, todo[0], s.created)
  {
    hide SetSlot, Channels;
  }

  ghost predicate AllNew(slots: seq<Slot>, tasks: seq<string>) {
    DistinctTasks(tasks) && forall t :: t in tasks && t != "" ==> !HasTask(slots, t)
  }

  lemma AllNewCons(slots: seq<Slot>, tasks: seq<string>, channel: Channel)
    requires tasks != []
    ensures tasks[0] == "" ==> (AllNew(slots, tasks) <==> AllNew(slots, tasks[1..]))
    ensures tasks[0] != "" ==>
              (AllNew(slots, tasks) <==>
                 !HasTask(slots, tasks[0]) && AllNew(SetSlot(slots, tasks[0], channel), tasks[1..]))
  {
    hide DistinctTasks, HasTask, SetSlot;
    DistinctCons(tasks);
    SetSlotTasks(slots, tasks[0], channel);
    assert forall t :: t in tasks <==> t == tasks[0] || t in tasks[1..];
  }

  predicate CreationDone(s: State) {
    s.control.Building? && s.control.todo == []
  }

  lemma {:induction false} BuildNeverOverwrites(s: State, events: seq<Event>)
    requires Builds(s, events) && CreationDone(Run(s, events))
    ensures NeverOverwrites(s, events) <==> AllNew(s.control.node.slots, s.control.todo)
    decreases |events|
  {
    if events == [] {
      assert AllNew(s.control.node.slots, []);
    } else {
      var e, s', rest := events[0], Next(s, events[0]), events[1..];
      BuildStep(s, e);
      if s.control.todo != [] {
        AllNewCons(s.control.node.slots, s.control.todo, s.created);
      }
      hide Next, AllNew, SetSlot, HasTask;
      BuildNeverOverwrites(s', rest);
    }
  }

  /**
   A registration whose creations all succeed, however the heartbeat thread runs beside it,
   ends with one holder for every channel exactly when its task ids are distinct; else a
   channel is leaked for good.
   */
  lemma RegistrationLeaksExactly(s: State, events: seq<Event>)
    requires Owned(s) && NameFree(s) && Builds(s, events) && s.control.node.slots == []
    requires CreationDone(Run(s, events))
    ensures OneHolder(Run(s, events)) <==> DistinctTasks(s.control.todo)
  {
    hide Owned, NameFree, Run, Builds, NeverOverwrites, OneHolder, DistinctTasks;
    EmptyHasNone();
    LeaksExactly(s, events);
    BuildNeverOverwrites(s, events);
  }

  function NonEmpty(tasks: seq<string>): (ts: seq<string>)
    ensures forall t :: t in ts <==> t in tasks && t != ""
    ensures |ts| <= |tasks|
  {
    if tasks == [] then [] else (if tasks[0] == "" then [] else [tasks[0]]) + NonEmpty(tasks[1..])
  }

  /** The slots hold these tasks in this order, on channels numbered from `first`. */
  ghost predicate Carries(slots: seq<Slot>, tasks: seq<string>, first: nat) {
    |slots| == |tasks| && forall i :: 0 <= i < |tasks| ==> slots[i] == Slot(tasks[i], first + i)
  }

  lemma CarriesCons(slots: seq<Slot>, all: seq<Slot>, task: string, rest: seq<string>, first: nat)
    requires |slots| < |all| && slots + [Slot(task, first)] <= all && Carries(all[|slots| + 1..], rest, first + 1)
    ensures slots <= all && Carries(all[|slots|..], [task] + rest, first)
  {
    var tail := all[|slots|..];
    assert tail[0] == Slot(task, first);
    assert tail[1..] == all[|slots| + 1..];
    assert forall i :: 0 < i < |tail| ==> tail[i] == tail[1..][i - 1];
  }

  lemma CreateStep(s: State, e: Event)
    requires s.control.Building? && (e.ControlStep? ==> e.createOk && s.control.todo != [])
    ensures var s' := Next(s, e);
            && s'.created == s.created + (if e.ControlStep? && s.control.todo[0] != "" then 1 else 0)
            && s'.control.Building? && s'.control.node.nodeId == s.control.node.nodeId
            && s'.control.node.instance == s.control.node.instance
  {
    hide SetSlot, Channels;
  }

  /** While nothing is overwritten, the node being built gains one slot for each task, in order, on a new channel. */
  lemma {:induction false} BuiltNode(s: State, events: seq<Event>)
    requires Builds(s, events) && CreationDone(Run(s, events)) && AllNew(s.control.node.slots, s.control.todo)
    ensures var node, built := s.control.node, Run(s, events).control.node;
            && built.nodeId == node.nodeId && built.instance == node.instance && node.slots <= built.slots
            && Carries(built.slots[|node.slots|..], NonEmpty(s.control.todo), s.created)
    decreases |events|
  {
    if events == [] {
    } else {
      var e, s', rest := events[0], Next(s, events[0]), events[1..];
      var slots, todo := s.control.node.slots, s.control.todo;
      BuildStep(s, e);
      CreateStep(s, e);
      if todo != [] {
        AllNewCons(slots, todo, s.created);
        SetSlotNew(slots, todo[0], s.created);
      }
      assert e.ControlStep? && todo[0] != "" ==> !HasTask(slots, todo[0]);
      hide Next, AllNew, SetSlot, HasTask, Carries;
      BuiltNode(s', rest);
      if e.ControlStep? && todo[0] != "" {
        CarriesCons(slots, Run(s, events).control.node.slots, todo[0], NonEmpty(todo[1..]), s.created);
      }
    }
  }

  /**
   And so a registration with distinct task ids whose creations succeed is stored as it was
   asked for: under its name, one slot per named task, in the manifest's order, each on a
   channel of its own.
   */
  lemma RegistrationStores(s: State, events: seq<Event>)
    requires Builds(s, events) && s.control.node.slots == [] && DistinctTasks(s.control.todo)
    requires CreationDone(Run(s, events))
    ensures var t, id := Next(Run(s, events), ControlStep(true)), s.control.node.nodeId;
            && t.control.Idle? && id in t.nodes && t.nodes[id].instance == s.control.node.instance
            && Carries(t.nodes[id].slots, NonEmpty(s.control.todo), s.created)
  {
    hide Builds, Run, DistinctTasks, SetSlot, Channels;
    EmptyHasNone();
    BuiltNode(s, events);
    var slots := Run(s, events).control.node.slots;
    assert slots[0..] == slots;
  }

  // ---------------------------------------------------------------- what the reaper removes

  /** Instance numbers in use are below the counter. */
  ghost predicate Stamped(s: State) {
    && (forall id :: id in s.nodes ==> s.nodes[id].instance < s.instances)
    && (s.control.Building? ==> s.control.node.instance < s.instances)
  }

  lemma NextStamped(s: State, e: Event)
    requires Stamped(s)
    ensures Stamped(Next(s, e))
  {
    hide SetSlot, Channels;
  }

  lemma {:induction false} RunStamped(s: State, events: seq<Event>)
    requires Stamped(s) && NameFree(s)
    ensures Stamped(Run(s, events)) && NameFree(Run(s, events))
    decreases |events|
  {
    if events == [] {
    } else {
      hide Next, Stamped, NameFree;
      NextStamped(s, events[0]);
      NextNameFree(s, events[0]);
      RunStamped(Next(s, events[0]), events[1..]);
    }
  }

  /** The control thread accepts a request to register or deregister the node. */
  predicate Accepts(s: State, e: Event, id: string) {
    s.control.Idle? && (e == Deregister(id) || (e.Register? && e.nodeId == id))
  }

  /** The heartbeat thread pops the name. */
  predicate Pops(s: State, e: Event, id: string) {
    e.HeartStep? && s.heart.Reaping? && s.heart.dead != [] && s.heart.dead[0] == id
  }

  ghost predicate NeverAccepts(s: State, events: seq<Event>, id: string)
    decreases |events|
  {
    events == [] || (!Accepts(s, events[0], id) && NeverAccepts(Next(s, events[0]), events[1..], id))
  }

  ghost predicate NeverPops(s: State, events: seq<Event>, id: string)
    decreases |events|
  {
    events == [] || (!Pops(s, events[0], id) && NeverPops(Next(s, events[0]), events[1..], id))
  }

  /** The instance registered under the name. */
  ghost predicate Current(s: State, id: string, instance: nat) {
    id in s.nodes && s.nodes[id].instance == instance
  }

  /** The instance has left the table for good. */
  ghost predicate Departed(s: State, id: string, instance: nat) {
    && instance < s.instances
    && !Current(s, id, instance)
    && (s.control.Building? && s.control.node.nodeId == id ==> s.control.node.instance != instance)
  }

  lemma DepartedStays(s: State, e: Event, id: string, instance: nat)
    requires Departed(s, id, instance)
    ensures Departed(Next(s, e), id, instance)
  {
    hide SetSlot, Channels;
  }

  lemma {:induction false} DepartedForever(s: State, events: seq<Event>, id: string, instance: nat)
    requires Departed(s, id, instance)
    ensures Departed(Run(s, events), id, instance)
    decreases |events|
  {
    if events == [] {
    } else {
      hide Next, Departed;
      DepartedStays(s, events[0], id, instance);
      DepartedForever(Next(s, events[0]), events[1..], id, instance);
    }
  }

  lemma CurrentStep(s: State, e: Event, id: string, instance: nat)
    requires Stamped(s) && NameFree(s) && Current(s, id, instance) && !Pops(s, e, id)
    ensures Accepts(s, e, id) ==> Departed(Next(s, e), id, instance)
    ensures !Accepts(s, e, id) ==> Current(Next(s, e), id, instance)
  {
    hide SetSlot, Channels;
  }

  /** Until the reaper pops the name, the instance under it is replaced exactly by a request of the node itself. */
  lemma {:induction false} CurrentExactly(s: State, events: seq<Event>, id: string, instance: nat)
    requires Stamped(s) && NameFree(s) && Current(s, id, instance) && NeverPops(s, events, id)
    ensures Current(Run(s, events), id, instance) <==> NeverAccepts(s, events, id)
    decreases |events|
  {
    if events == [] {
    } else {
      var s', rest := Next(s, events[0]), events[1..];
      CurrentStep(s, events[0], id, instance);
      NextStamped(s, events[0]);
      NextNameFree(s, events[0]);
      hide Next, Stamped, NameFree, Current, Accepts, Pops;
      if Accepts(s, events[0], id) {
        DepartedForever(s', rest, id, instance);
        assert Departed(Run(s', rest), id, instance) ==> !Current(Run(s', rest), id, instance);
      } else {
        CurrentExactly(s', rest, id, instance);
      }
    }
  }

  /**
   Collecting and popping hold the lock separately. Whatever happens in between, the pop
   removes the instance that was found dead exactly when no request to register or
   deregister that node was accepted since; otherwise it removes the later instance, or
   nothing.
   */
  lemma ReaperPopsExactly(s: State, dead: seq<string>, events: seq<Event>, id: string)
    requires Stamped(s) && NameFree(s) && s.heart.Asleep? && id in dead && id in s.nodes
    requires var collected := Next(s, Collect(dead));
             NeverPops(collected, events, id) && Pops(Run(collected, events), HeartStep, id)
    ensures var collected := Next(s, Collect(dead));
            var t := Run(collected, events);
            && (Current(t, id, s.nodes[id].instance) <==> NeverAccepts(collected, events, id))
            && id !in Next(t, HeartStep).nodes
            && (id in t.nodes ==> Next(t, HeartStep).heart == Cleaning(Channels(t.nodes[id].slots), t.heart.dead[1..]))
  {
    var collected := Next(s, Collect(dead));
    assert Stamped(collected) && NameFree(collected);
    CurrentExactly(collected, events, id, s.nodes[id].instance);
    hide Run, NeverPops, NeverAccepts, Stamped, NameFree;
  }

  /** The table after the steps of one undisturbed registration of a node with one task. */
  lemma RegisterOne(s: State, id: string, task: string)
    requires s.control.Idle? && task != "" && (id in s.nodes ==> s.nodes[id].slots == [])
    ensures var b := Building(Node(id, s.instances, []), [task]);
            var started := Next(s, Register(id, [task]));
            var q := if id in s.nodes then Next(started, ControlStep(true)) else started;
            var t := Next(Next(q, ControlStep(true)), ControlStep(true));
            && q.control == b && t.control.Idle? && t.heart == s.heart
            && id in t.nodes && t.nodes[id] == Node(id, s.instances, [Slot(task, s.created)])
  {
    assert [task][1..] == [];
  }

  /** A run in which the reaper removes an instance registered after it collected the dead. */
  lemma ReaperPopsReplacement(s: State, id: string, task: string)
    requires s.control.Idle? && s.heart.Asleep? && task != "" && id in s.nodes && s.nodes[id].slots == []
    ensures var collected := Next(s, Collect([id]));
            var popped := Next(Next(collected, Register(id, [task])), ControlStep(true));
            var replaced := Next(Next(popped, ControlStep(true)), ControlStep(true));
            && Current(replaced, id, s.instances)
            && id !in Next(replaced, HeartStep).nodes
            && Next(replaced, HeartStep).heart == Cleaning([s.created], [])
  {
    var collected := Next(s, Collect([id]));
    RegisterOne(collected, id, task);
    assert [id][1..] == [];
    assert Channels([Slot(task, s.created)]) == [s.created];
  }

  // ---------------------------------------------------------------- the daemon object

  /** The daemon's node table with the two threads' progress; each method is one atomic step. */
  class BridgeDaemon {
    var nodes: map<string, Node>
    var control: Control
    var heart: Heart
    var instances: nat
    var created: nat
    ghost var unlinked: seq<Channel>

    ghost function Abs(): State
      reads this
    {
      State(nodes, control, heart, instances, created, unlinked)
    }

    constructor ()
      ensures Abs() == START && Inv(Abs())
    {
      nodes, control, heart := map[], Idle, Asleep;
      instances, created, unlinked := 0, 0, [];
    }

    method PopNode(id: string) returns (popped: seq<Channel>, found: bool)
      modifies this`nodes
      ensures found == (id in old(nodes)) && nodes == old(nodes) - {id}
      ensures popped == if found then Channels(old(nodes)[id].slots) else []
    {
      found := id in nodes;
      popped := if found then Channels(nodes[id].slots) else [];
      nodes := nodes - {id};
    }

    method BeginRegister(id: string, tasks: seq<string>)
      requires control.Idle?
      modifies this
      ensures Abs() == Next(old(Abs()), Register(id, tasks))
      ensures nodes == old(nodes) - {id} && created == old(created) && unlinked == old(unlinked)
      ensures id in old(nodes) ==>
        && control.Replacing? && control.nodeId == id && control.tasks == tasks
        && |control.left| == |old(nodes)[id].slots|
        && forall i :: 0 <= i < |control.left| ==> control.left[i] == old(nodes)[id].slots[i].channel
      ensures id !in old(nodes) ==> control == Building(Node(id, old(instances), []), tasks)
      ensures old(Inv(Abs())) && DistinctTasks(tasks) ==> Inv(Abs())
    {
      if Inv(Abs()) && DistinctTasks(tasks) {
        NextInv(Abs(), Register(id, tasks));
      }
      var popped, found := PopNode(id);
      if found {
        control := Replacing(popped, id, tasks);
      } else {
        assert nodes == old(nodes);
        control, instances := Building(Node(id, instances, []), tasks), instances + 1;
      }
    }

    method BeginDeregister(id: string) returns (found: bool)
      requires control.Idle?
      modifies this
      ensures found == (id in old(nodes))
      ensures Abs() == Next(old(Abs()), Deregister(id))
      ensures nodes == old(nodes) - {id} && created == old(created) && unlinked == old(unlinked)
      ensures found ==>
        && control.Releasing? && |control.left| == |old(nodes)[id].slots|
        && forall i :: 0 <= i < |control.left| ==> control.left[i] == old(nodes)[id].slots[i].channel
      ensures old(Inv(Abs())) ==> Inv(Abs())
    {
      if Inv(Abs()) {
        NextInv(Abs(), Deregister(id));
      }
      var popped;
      popped, found := PopNode(id);
      if found {
        control := Releasing(popped);
      } else {
        assert nodes == old(nodes);
      }
    }

    /** The control thread's next step: unlink, create, or store under the lock. */
    method AdvanceControl(createOk: bool)
      modifies this
      ensures Abs() == Next(old(Abs()), ControlStep(createOk))
      ensures old(control.Building? && control.todo == []) ==>
                control.Idle? && nodes == old(nodes)[old(control).node.nodeId := old(control).node]
      ensures !old(control.Building? && control.todo == []) ==> nodes == old(nodes)
      ensures unlinked == old(unlinked) +
                if old((control.Replacing? || control.Releasing?) && control.left != []) then [old(control).left[0]]
                else []
      ensures created == old(created) +
                if old(control.Building? && control.todo != [] && control.todo[0] != "") && createOk then 1 else 0
      ensures old(Inv(Abs())) ==> Inv(Abs())
    {
      if Inv(Abs()) {
        NextInv(Abs(), ControlStep(createOk));
      }
      match control {
        case Idle =>
        case Replacing(left, id, tasks) =>
          if left == [] {
            control, instances := Building(Node(id, instances, []), tasks), instances + 1;
          } else {
            unlinked, control := unlinked + [left[0]], Replacing(left[1..], id, tasks);
          }
        case Releasing(left) =>
          if left == [] {
            control := Idle;
          } else {
            unlinked, control := unlinked + [left[0]], Releasing(left[1..]);
          }
        case Building(node, todo) =>
          if todo == [] {
            nodes, control := nodes[node.nodeId := node], Idle;
          } else if todo[0] == "" || !createOk {
            control := Building(node, todo[1..]);
          } else {
            control := Building(node.(slots := SetSlot(node.slots, todo[0], created)), todo[1..]);
            created := created + 1;
          }
      }
    }

    method BeginReap(dead: seq<string>)
      requires heart.Asleep?
      modifies this
      ensures Abs() == Next(old(Abs()), Collect(dead))
      ensures old(Inv(Abs())) ==> Inv(Abs())
    {
      if Inv(Abs()) {
        NextInv(Abs(), Collect(dead));
      }
      heart := Reaping(dead);
    }

    /** The heartbeat thread's next step: pop under the lock, or unlink. */
    method AdvanceHeart()
      modifies this
      ensures Abs() == Next(old(Abs()), HeartStep)
      ensures nodes == old(nodes) - if old(heart.Reaping? && heart.dead != []) then {old(heart).dead[0]} else {}
      ensures unlinked == old(unlinked) +
                if old(heart.Cleaning? && heart.left != []) then [old(heart).left[0]] else []
      ensures created == old(created)
      ensures old(Inv(Abs())) ==> Inv(Abs())
    {
      if Inv(Abs()) {
        NextInv(Abs(), HeartStep);
      }
      match heart {
        case Asleep =>
        case Cleaning(left, dead) =>
          if left == [] {
            heart := Reaping(dead);
          } else {
            unlinked, heart := unlinked + [left[0]], Cleaning(left[1..], dead);
          }
        case Reaping(dead) =>
          if dead == [] {
            heart := Asleep;
          } else {
            var popped, found := PopNode(dead[0]);
            if found {
              heart := Cleaning(popped, dead[1..]);
            } else {
              assert nodes == old(nodes);
              heart := Reaping(dead[1..]);
            }
          }
      }
    }
  }
}
