/**
 The timer server in the form the component has it: timers are nodes of a doubly linked
 list threaded through the per-client arrays, and every request relinks nodes in place.
 `model` is the value of module TimerModel that the heap represents.
 */
module TimerServer {
  import opened Words
  import opened TimerModel
  import opened TimerDrain

  class ClientTimer {
    const id: nat
    const clientId: nat
    var timerType: Kind
    var periodicNs: nat
    var timeoutTime: nat
    var prev: ClientTimer?
    var next: ClientTimer?

    constructor (id: nat, clientId: nat)
      ensures this.id == id && this.clientId == clientId
      ensures timerType == Off && periodicNs == 0 && timeoutTime == 0
      ensures prev == null && next == null
    {
      this.id := id;
      this.clientId := clientId;
      timerType, periodicNs, timeoutTime := Off, 0, 0;
      prev, next := null, null;
    }
  }

  class ClientState {
    const id: nat
    const timers: seq<ClientTimer>
    var completed: bv32

    constructor (id: nat, timers: seq<ClientTimer>)
      ensures this.id == id && this.timers == timers && completed == 0
    {
      this.id := id;
      this.timers := timers;
      completed := 0;
    }
  }

  ghost predicate Spot(l: seq<ClientTimer>, i: int) {
    0 <= i < |l|
  }

  /** No node is in the list twice. */
  ghost predicate Apart(l: seq<ClientTimer>) {
    forall i, j {:trigger Spot(l, i), Spot(l, j)} :: Spot(l, i) && Spot(l, j) && l[i] == l[j] ==> i == j
  }

  lemma OthersDiffer(l: seq<ClientTimer>, i: nat)
    requires Apart(l) && i < |l|
    ensures forall j | 0 <= j < |l| && j != i :: l[j] != l[i]
  {
    forall j | 0 <= j < |l| && j != i
      ensures l[j] != l[i]
    {
      assert Spot(l, i) && Spot(l, j);
    }
  }

  ghost predicate Within(l: seq<ClientTimer>, nodes: set<ClientTimer>) {
    forall i | 0 <= i < |l| :: l[i] in nodes
  }

  /** The node at a position of the list, NULL on either side of it. */
  ghost function NodeAt(l: seq<ClientTimer>, i: int): ClientTimer? {
    if 0 <= i < |l| then l[i] else null
  }

  lemma AfterDrop(l: seq<ClientTimer>, i: nat, j: nat)
    requires i < |l| && j < |l| - 1
    ensures var r := l[..i] + l[i + 1..];
            && r[j] == l[if j < i then j else j + 1]
            && NodeAt(r, j - 1) == NodeAt(l, if j <= i then j - 1 else j)
            && NodeAt(r, j + 1) == NodeAt(l, if j + 1 < i then j + 1 else j + 2)
  {
  }

  lemma AfterInsert(l: seq<ClientTimer>, t: ClientTimer, p: nat, j: nat)
    requires p <= |l| && j <= |l|
    ensures var r := l[..p] + [t] + l[p..];
            && r[j] == (if j < p then l[j] else if j == p then t else l[j - 1])
            && NodeAt(r, j - 1) == (if j <= p then NodeAt(l, j - 1) else if j == p + 1 then t else NodeAt(l, j - 2))
            && NodeAt(r, j + 1) == (if j + 1 < p then NodeAt(l, j + 1) else if j + 1 == p then t else NodeAt(l, j))
  {
  }

  lemma ApartDrop(l: seq<ClientTimer>, i: nat, nodes: set<ClientTimer>)
    requires Apart(l) && Within(l, nodes) && i < |l|
    ensures var r := l[..i] + l[i + 1..]; Apart(r) && Within(r, nodes) && l[i] !in r
  {
    var r := l[..i] + l[i + 1..];
    OthersDiffer(l, i);
    forall a, b | Spot(r, a) && Spot(r, b) && r[a] == r[b]
      ensures a == b
    {
      assert Spot(l, if a < i then a else a + 1);
      assert Spot(l, if b < i then b else b + 1);
    }
  }

  lemma ApartInsert(l: seq<ClientTimer>, t: ClientTimer, p: nat, nodes: set<ClientTimer>)
    requires Apart(l) && Within(l, nodes) && t in nodes && t !in l && p <= |l|
    ensures var r := l[..p] + [t] + l[p..]; Apart(r) && Within(r, nodes)
  {
    var r := l[..p] + [t] + l[p..];
    forall a, b | Spot(r, a) && Spot(r, b) && r[a] == r[b]
      ensures a == b
    {
      assert r[a] == if a < p then l[a] else if a == p then t else l[a - 1];
      assert r[b] == if b < p then l[b] else if b == p then t else l[b - 1];
      assert a != p ==> Spot(l, if a < p then a else a - 1);
      assert b != p ==> Spot(l, if b < p then b else b - 1);
    }
  }

  ghost predicate InitialTimer(t: ClientTimer, client: nat, id: nat)
    reads t
  {
    t.clientId == client && t.id == id && t.timerType == Off && t.periodicNs == 0 && t.timeoutTime == 0
  }

  ghost predicate InitialState(s: ClientState, id: nat, perClient: nat, nodes: set<ClientTimer>)
    reads s, nodes
  {
    && s.id == id && s.completed == 0 && |s.timers| == perClient
    && forall t | 0 <= t < perClient :: s.timers[t] in nodes && InitialTimer(s.timers[t], id, t)
  }

  class TimeServer {
    const timersPerClient: nat
    const clients: seq<ClientState>
    var timerHead: ClientTimer?
    var currentTime: nat
    ghost const states: set<ClientState>
    ghost const nodes: set<ClientTimer>
    ghost var list: seq<ClientTimer>
    ghost var model: Server

    // ------------------------------------------------------------- invariant

    /** The arrays built once: slot (c, t) holds the timer with these numbers. */
    ghost predicate Shape() {
      && timersPerClient <= 32
      && (forall c | 0 <= c < |clients| ::
            && clients[c] in states
            && clients[c].id == c && |clients[c].timers| == timersPerClient)
      && (forall c, t | 0 <= c < |clients| && 0 <= t < timersPerClient ::
            && clients[c].timers[t] in nodes
            && clients[c].timers[t].clientId == c && clients[c].timers[t].id == t)
    }

    ghost predicate HasKey(k: Key) {
      k.client < |clients| && k.timer < timersPerClient
    }

    ghost function TimerAt(k: Key): (t: ClientTimer)
      requires Shape() && HasKey(k)
      ensures t.clientId == k.client && t.id == k.timer
      ensures t in nodes
    {
      clients[k.client].timers[k.timer]
    }

    /** prev and next of every node of l name its neighbours in l. */
    ghost predicate Chained(l: seq<ClientTimer>)
      reads l`prev, l`next
    {
      && (forall i {:trigger l[i].prev} | 0 <= i < |l| :: l[i].prev == NodeAt(l, i - 1))
      && (forall i {:trigger l[i].next} | 0 <= i < |l| :: l[i].next == NodeAt(l, i + 1))
    }

    /** The nodes of `list` form a doubly linked list that starts at timerHead. */
    ghost predicate Linked()
      reads this`timerHead, this`list, nodes`prev, nodes`next
    {
      && Apart(list)
      && Within(list, nodes)
      && timerHead == NodeAt(list, 0)
      && Chained(list)
    }

    ghost predicate Mirrors(t: ClientTimer, c: Cell)
      reads t`timerType, t`periodicNs, t`timeoutTime
    {
      t.timerType == c.kind && t.periodicNs == c.period && t.timeoutTime == c.deadline
    }

    /** The clock and the completion words are the ones m records. */
    ghost predicate Agrees(m: Server)
      requires Shape()
      reads this`currentTime, states`completed
    {
      && m.perClient == timersPerClient
      && m.now == currentTime
      && |m.words| == |clients|
      && forall c | 0 <= c < |clients| :: WordIs(clients[c].completed, m.words[c])
    }

    /** All timers but those in x, which a request is rewriting, have the fields of their cells. */
    ghost predicate CellsAgree(cells: map<Key, Cell>, x: set<Key>)
      requires Shape()
      reads nodes`timerType, nodes`periodicNs, nodes`timeoutTime
    {
      forall k | HasKey(k) && k !in x :: k in cells && Mirrors(TimerAt(k), cells[k])
    }

    /** The nodes l are the timers named by q. */
    ghost predicate Names(l: seq<ClientTimer>, q: seq<Key>)
      requires Shape()
    {
      && |l| == |q|
      && forall i | 0 <= i < |q| :: HasKey(q[i]) && l[i] == TimerAt(q[i])
    }

    ghost predicate Valid()
      reads this, states, nodes
    {
      && Shape()
      && WellFormed(model)
      && Agrees(model)
      && CellsAgree(model.cells, {})
      && Names(list, model.queue)
      && Linked()
    }

    /** The state inside a request, after timer k has been unlinked: the rest is in order. */
    ghost predicate Detached(k: Key)
      reads this, states`completed, nodes`prev, nodes`next
    {
      && Shape() && HasKey(k)
      && WellFormed(model)
      && Agrees(model)
      && Linked()
      && k !in Unlink(model, k).queue
      && Names(list, Unlink(model, k).queue)
    }

    /** The allocation part of post_init. */
    constructor (largestBadge: nat, timersPerClient: nat)
      requires timersPerClient <= 32
      ensures Valid() && model == Init(largestBadge, timersPerClient)
      ensures currentTime == 0 && timerHead == null
      ensures |clients| == largestBadge && this.timersPerClient == timersPerClient
      ensures forall c | 0 <= c < largestBadge ::
                clients[c].completed == 0 && |clients[c].timers| == timersPerClient
                && forall t | 0 <= t < timersPerClient :: clients[c].timers[t].timerType == Off
      ensures fresh(nodes) && fresh(states)
    {
      var built: seq<ClientState> := [];
      ghost var allStates: set<ClientState>, allNodes: set<ClientTimer> := {}, {};
      while |built| < largestBadge
        invariant |built| <= largestBadge
        invariant fresh(allStates) && fresh(allNodes)
        invariant forall c | 0 <= c < |built| :: built[c] in allStates && InitialState(built[c], c, timersPerClient, allNodes)
      {
        var c := |built|;
        var timers: seq<ClientTimer> := [];
        while |timers| < timersPerClient
          invariant |built| == c && |timers| <= timersPerClient
          invariant fresh(allStates) && fresh(allNodes)
          invariant forall d | 0 <= d < c :: built[d] in allStates && InitialState(built[d], d, timersPerClient, allNodes)
          invariant forall t | 0 <= t < |timers| :: timers[t] in allNodes && InitialTimer(timers[t], c, t)
        {
          var timer := new ClientTimer(|timers|, c);
          timers := timers + [timer];
          allNodes := allNodes + {timer};
        }
        var state := new ClientState(c, timers);
        built := built + [state];
        allStates := allStates + {state};
      }
      this.timersPerClient := timersPerClient;
      clients, states, nodes := built, allStates, allNodes;
      timerHead, list := null, [];
      currentTime := 0;
      WordZero();
      model := Init(largestBadge, timersPerClient);
    }

    // ------------------------------------------------------ list manipulation

    /** remove_timer. The removed node keeps its links. */
    method RemoveTimer(timer: ClientTimer, ghost i: nat)
      requires Linked() && i < |list| && list[i] == timer
      modifies this`timerHead, this`list, nodes`prev, nodes`next
      ensures Linked()
      ensures list == old(list)[..i] + old(list)[i + 1..]
    {
      ghost var l := list;
      OthersDiffer(l, i);
      if i > 0 { OthersDiffer(l, i - 1); }
      if i + 1 < |l| { OthersDiffer(l, i + 1); }
      assert timer.prev == NodeAt(l, i - 1) && timer.next == NodeAt(l, i + 1);
      if timer.prev != null {
        timer.prev.next := timer.next;
      } else {
        assert timer == timerHead;
        timerHead := timer.next;
      }
      if timer.next != null {
        timer.next.prev := timer.prev;
      }
      list := l[..i] + l[i + 1..];
      ApartDrop(l, i, nodes);
      ChainAfterDrop(l, i);
    }

    lemma ChainAfterDrop(l: seq<ClientTimer>, i: nat)
      requires i < |l|
      requires forall j {:trigger l[j].next} | 0 <= j < |l| && j != i && j != i - 1 :: l[j].next == NodeAt(l, j + 1)
      requires forall j {:trigger l[j].prev} | 0 <= j < |l| && j != i && j != i + 1 :: l[j].prev == NodeAt(l, j - 1)
      requires i > 0 ==> l[i - 1].next == NodeAt(l, i + 1)
      requires i + 1 < |l| ==> l[i + 1].prev == NodeAt(l, i - 1)
      ensures Chained(l[..i] + l[i + 1..])
    {
      var r := l[..i] + l[i + 1..];
      forall j | 0 <= j < |r|
        ensures r[j].prev == NodeAt(r, j - 1) && r[j].next == NodeAt(r, j + 1)
      {
        AfterDrop(l, i, j);
      }
    }

    lemma ChainAfterInsert(l: seq<ClientTimer>, t: ClientTimer, p: nat)
      requires p <= |l|
      requires forall j {:trigger l[j].next} | 0 <= j < |l| && j != p - 1 :: l[j].next == NodeAt(l, j + 1)
      requires forall j {:trigger l[j].prev} | 0 <= j < |l| && j != p :: l[j].prev == NodeAt(l, j - 1)
      requires p > 0 ==> l[p - 1].next == t
      requires p < |l| ==> l[p].prev == t
      requires t.prev == NodeAt(l, p - 1) && t.next == NodeAt(l, p)
      ensures Chained(l[..p] + [t] + l[p..])
    {
      var r := l[..p] + [t] + l[p..];
      forall j | 0 <= j < |r|
        ensures r[j].prev == NodeAt(r, j - 1) && r[j].next == NodeAt(r, j + 1)
      {
        AfterInsert(l, t, p, j);
      }
    }

    /** insert_timer: the node goes in front of the first one that is not due earlier. */
    method InsertTimer(timer: ClientTimer) returns (ghost p: nat)
      requires Linked() && timer in nodes && timer !in list
      modifies this`timerHead, this`list, nodes`prev, nodes`next
      ensures Linked()
      ensures p <= |old(list)| && list == old(list)[..p] + [timer] + old(list)[p..]
      ensures forall i | 0 <= i < p :: old(list)[i].timeoutTime < timer.timeoutTime
      ensures p < |old(list)| ==> timer.timeoutTime <= old(list)[p].timeoutTime
    {
      var current: ClientTimer?, next: ClientTimer? := null, timerHead;
      p := 0;
      while next != null && next.timeoutTime < timer.timeoutTime
        invariant p <= |list|
        invariant current == NodeAt(list, p - 1) && next == NodeAt(list, p)
        invariant forall i | 0 <= i < p :: list[i].timeoutTime < timer.timeoutTime
        modifies {}
        decreases |list| - p
      {
        current, next := next, next.next;
        p := p + 1;
      }
      ghost var l := list;
      assert forall j | 0 <= j < |l| :: l[j] != timer;
      if p < |l| { OthersDiffer(l, p); }
      if p > 0 { OthersDiffer(l, p - 1); }
      timer.prev := current;
      timer.next := next;
      if next != null {
        next.prev := timer;
      }
      if current != null {
        current.next := timer;
      } else {
        timerHead := timer;
      }
      list := l[..p] + [timer] + l[p..];
      ApartInsert(l, timer, p, nodes);
      ChainAfterInsert(l, timer, p);
    }

    lemma NamesApart(l: seq<ClientTimer>, q: seq<Key>, k: Key)
      requires Shape() && Names(l, q) && HasKey(k)
      ensures TimerAt(k) in l <==> k in q
    {
      if TimerAt(k) in l {
        var i :| 0 <= i < |l| && l[i] == TimerAt(k);
        assert TimerAt(q[i]) == TimerAt(k);
      }
    }

    lemma NamesDrop(l: seq<ClientTimer>, q: seq<Key>, i: nat)
      requires Shape() && Names(l, q) && i < |q|
      ensures Names(l[..i] + l[i + 1..], q[..i] + q[i + 1..])
    {
    }

    lemma NamesInsert(l: seq<ClientTimer>, q: seq<Key>, k: Key, p: nat)
      requires Shape() && Names(l, q) && p <= |q| && HasKey(k)
      ensures Names(l[..p] + [TimerAt(k)] + l[p..], q[..p] + [k] + q[p..])
    {
    }

    /** The call of remove_timer on an active timer. */
    method UnlinkTimer(timer: ClientTimer, ghost k: Key)
      requires Valid() && HasKey(k) && timer == TimerAt(k) && k in model.queue
      modifies this`timerHead, this`list, nodes`prev, nodes`next
      ensures Detached(k) && CellsAgree(model.cells, {})
    {
      ghost var i :| 0 <= i < |model.queue| && model.queue[i] == k;
      WithoutAt(model.queue, k, i);
      NamesDrop(list, model.queue, i);
      DropMembers(model.queue, i, k);
      RemoveTimer(timer, i);
    }

    /** Inserts timer k into the list that names q; k's cell has its new deadline already. */
    method LinkTimer(timer: ClientTimer, ghost k: Key, ghost cells: map<Key, Cell>, ghost q: seq<Key>)
      requires Shape() && CellsAgree(cells, {}) && HasKey(k) && timer == TimerAt(k)
      requires Linked() && Names(list, q) && k !in q
      modifies this`timerHead, this`list, nodes`prev, nodes`next
      ensures Linked() && Names(list, Insert(cells, q, k)) && CellsAgree(cells, {})
    {
      ghost var l := list;
      NamesApart(l, q, k);
      ListDeadlines(cells, q);
      assert Mirrors(timer, cells[k]);
      ghost var p := InsertTimer(timer);
      PositionIs(cells, q, cells[k].deadline, p);
      NamesInsert(l, q, k, p);
    }

    /** Overwrites the fields of the unlinked timer k with those of c and inserts it. */
    method ArmTimer(timer: ClientTimer, ghost k: Key, c: Cell)
      requires Detached(k) && CellsAgree(model.cells, {}) && timer == TimerAt(k) && c.kind != Off
      modifies this`timerHead, this`list, this`model, nodes
      ensures Valid() && model == Arm(old(model), k, c)
    {
      timer.timerType := c.kind;
      timer.periodicNs := c.period;
      timer.timeoutTime := c.deadline;
      OthersAgree(k);
      ghost var q := Unlink(model, k).queue;
      RecordArming(k, c);
      LinkTimer(timer, k, model.cells, q);
    }

    ghost method RecordArming(k: Key, c: Cell)
      requires Detached(k) && CellsAgree(model.cells, {k}) && Mirrors(TimerAt(k), c) && c.kind != Off
      modifies this`model
      ensures model == Arm(old(model), k, c) && WellFormed(model)
      ensures Agrees(model) && CellsAgree(model.cells, {})
    {
      ArmKeeps(model, k, c);
      ArmedAgrees(k, c);
      model := Arm(model, k, c);
    }

    /** Turns the unlinked timer k off. */
    method DisarmTimer(timer: ClientTimer, ghost k: Key)
      requires Detached(k) && CellsAgree(model.cells, {}) && timer == TimerAt(k) && Active(model.cells, k)
      modifies this`model, timer`timerType
      ensures Valid() && model == Disarm(old(model), k)
    {
      assert Mirrors(timer, model.cells[k]);
      timer.timerType := Off;
      OthersAgree(k);
      DisarmKeeps(model, k);
      DisarmedAgrees(k);
      model := Disarm(model, k);
    }

    /** Writing the fields of timer k leaves the cells of all other timers in agreement. */
    twostate lemma OthersAgree(k: Key)
      requires Shape() && HasKey(k) && old(CellsAgree(model.cells, {}))
      requires model == old(model)
      requires forall t | t in nodes && t != TimerAt(k) ::
                 t.timerType == old(t.timerType) && t.periodicNs == old(t.periodicNs)
                 && t.timeoutTime == old(t.timeoutTime)
      ensures CellsAgree(model.cells, {k})
    {
      forall k' | HasKey(k') && k' != k
        ensures k' in model.cells && Mirrors(TimerAt(k'), model.cells[k'])
      {
        assert old(Mirrors(TimerAt(k'), model.cells[k']));
      }
    }

    lemma ArmedAgrees(k: Key, c: Cell)
      requires Shape() && Agrees(model) && CellsAgree(model.cells, {k})
      requires HasKey(k) && Mirrors(TimerAt(k), c)
      ensures Agrees(Arm(model, k, c)) && CellsAgree(Arm(model, k, c).cells, {})
    {
      forall k' | HasKey(k')
        ensures k' in model.cells[k := c] && Mirrors(TimerAt(k'), model.cells[k := c][k'])
      {
        assert k' != k ==> k' in model.cells;
      }
    }

    lemma ListDeadlines(cells: map<Key, Cell>, q: seq<Key>)
      requires Shape() && CellsAgree(cells, {}) && Names(list, q)
      ensures forall i | 0 <= i < |q| :: DeadlineOf(cells, q[i]) == list[i].timeoutTime
    {
      forall i | 0 <= i < |q|
        ensures DeadlineOf(cells, q[i]) == list[i].timeoutTime
      {
        assert HasKey(q[i]) && Mirrors(TimerAt(q[i]), cells[q[i]]);
      }
    }

    // -------------------------------------------------------------- signalling

    /** The part of signal_client that the client sees; the emitted badge goes into the log. */
    method NotifyClient(timer: ClientTimer, ghost k: Key)
      requires Valid() && k in model.cells && timer == TimerAt(k)
      modifies this`model, states`completed
      ensures Valid() && model == Signalled(old(model), k)
    {
      var client := clients[timer.clientId];
      WordWith(client.completed, model.words[k.client], k.timer);
      client.completed := With(client.completed, Bit(timer.id));
      assert Mirrors(timer, model.cells[k]);
      model := model.(log := model.log + [Fired(timer.clientId + 1, timer.id, timer.timeoutTime, currentTime)],
                      words := model.words[k.client := model.words[k.client] + {k.timer}]);
    }

    /** signal_client */
    method SignalClient(timer: ClientTimer)
      requires Valid() && Due(model) && timer == timerHead
      modifies this`timerHead, this`list, this`model, states`completed, nodes
      ensures Valid() && model == Fire(old(model))
    {
      ghost var k := model.queue[0];
      assert k in model.queue && timer == TimerAt(k);
      NotifyClient(timer, k);
      UnlinkTimer(timer, k);
      assert Mirrors(timer, model.cells[k]);
      match timer.timerType
      case Off =>
        assert false;
      case Periodic =>
        ArmTimer(timer, k, Cell(Periodic, timer.periodicNs, Add64(timer.timeoutTime, timer.periodicNs)));
      case _ =>
        DisarmTimer(timer, k);
    }

    /** signal_clients, whenever the loop ends. */
    method SignalClients(now: nat)
      requires Valid() && Ends(model) && now == currentTime
      modifies this`timerHead, this`list, this`model, states`completed, nodes
      ensures Valid() && model == Drained(old(model))
    {
      ghost var n: nat :| StopsAfter(model, n);
      ghost var end := Drained(model);
      DrainedIs(model, n);
      RoundsReach(model, n);
      while timerHead != null && timerHead.timeoutTime <= now
        invariant Valid() && model.now == now
        invariant Reaches(model, n, end)
        decreases n
      {
        HeadIsDue();
        ReachesStep(model, n, end);
        SignalClient(timerHead);
        n := n - 1;
      }
      HeadIsDue();
    }

    lemma HeadIsDue()
      requires Valid()
      ensures Due(model) <==> timerHead != null && timerHead.timeoutTime <= currentTime
    {
      if model.queue != [] {
        assert HasKey(model.queue[0]) && list[0] == TimerAt(model.queue[0]);
        assert Mirrors(list[0], model.cells[model.queue[0]]);
      }
    }

    /** update_current_time_ns(TIMER_PERIOD) */
    method UpdateCurrentTime()
      requires Valid()
      modifies this`currentTime, this`model
      ensures Valid() && model == Ticked(old(model))
    {
      assert WellFormed(Ticked(model));
      currentTime := Add64(currentTime, TICK);
      model := Ticked(model);
    }

    /** irq_handle, whenever the drain ends. */
    method IrqHandle()
      requires Valid() && Ends(Ticked(model))
      modifies this`timerHead, this`currentTime, this`list, this`model, states`completed, nodes
      ensures Valid() && model == Drained(Ticked(old(model)))
      ensures CanStep(old(model), Tick) ==> model == Step(old(model), Tick)
    {
      TickSteps(model);
      UpdateCurrentTime();
      SignalClients(currentTime);
    }

    lemma TickSteps(s: Server)
      ensures CanStep(s, Tick) ==> Ends(Ticked(s)) && Drained(Ticked(s)) == Step(s, Tick)
    {
      if CanStep(s, Tick) {
        SafeEnds(Ticked(s));
      }
    }

    // ---------------------------------------------------------------- requests

    /** How every request that arms a timer begins. */
    method UnlinkIfActive(timer: ClientTimer, ghost k: Key)
      requires Valid() && HasKey(k) && timer == TimerAt(k)
      modifies this`timerHead, this`list, nodes`prev, nodes`next
      ensures Detached(k) && CellsAgree(model.cells, {})
      ensures k in model.cells && Mirrors(timer, model.cells[k])
    {
      Attach(k);
      if timer.timerType != Off {
        UnlinkTimer(timer, k);
      }
    }

    method OneshotRelative(cid: nat, tid: int, ns: nat) returns (ret: int)
      requires Valid() && CanStep(model, TimerModel.OneshotRelative(cid, tid, ns))
      modifies this`timerHead, this`list, this`model, nodes
      ensures Valid() && model == Step(old(model), TimerModel.OneshotRelative(cid, tid, ns))
      ensures ret == if 0 <= tid < timersPerClient then 0 else -1
      ensures ret == 0 ==>
                var t := clients[cid].timers[tid];
                t.timerType == Relative && t.timeoutTime == Add64(currentTime, ns) && t.periodicNs == old(t.periodicNs)
    {
      if tid >= timersPerClient || tid < 0 {
        return -1;
      }
      var t := clients[cid].timers[tid];
      ghost var k := Key(cid, tid);
      UnlinkIfActive(t, k);
      ArmTimer(t, k, Cell(Relative, t.periodicNs, Add64(currentTime, ns)));
      return 0;
    }

    method OneshotAbsolute(cid: nat, tid: int, ns: nat) returns (ret: int)
      requires Valid() && CanStep(model, TimerModel.OneshotAbsolute(cid, tid, ns))
      modifies this`timerHead, this`list, this`model, nodes
      ensures Valid() && model == Step(old(model), TimerModel.OneshotAbsolute(cid, tid, ns))
      ensures ret == if 0 <= tid < timersPerClient then 0 else -1
      ensures ret == 0 ==>
                var t := clients[cid].timers[tid];
                t.timerType == Absolute && t.timeoutTime == ns && t.periodicNs == old(t.periodicNs)
    {
      if tid >= timersPerClient || tid < 0 {
        return -1;
      }
      var t := clients[cid].timers[tid];
      ghost var k := Key(cid, tid);
      UnlinkIfActive(t, k);
      ArmTimer(t, k, Cell(Absolute, t.periodicNs, ns));
      return 0;
    }

    method SetPeriodic(cid: nat, tid: int, ns: nat) returns (ret: int)
      requires Valid() && CanStep(model, TimerModel.SetPeriodic(cid, tid, ns))
      modifies this`timerHead, this`list, this`model, nodes
      ensures Valid() && model == Step(old(model), TimerModel.SetPeriodic(cid, tid, ns))
      ensures ret == if 0 <= tid < timersPerClient then 0 else -1
      ensures ret == 0 ==>
                var t := clients[cid].timers[tid];
                t.timerType == Periodic && t.timeoutTime == Add64(currentTime, ns) && t.periodicNs == ns
    {
      if tid >= timersPerClient || tid < 0 {
        return -1;
      }
      var t := clients[cid].timers[tid];
      ghost var k := Key(cid, tid);
      UnlinkIfActive(t, k);
      ghost var op := TimerModel.SetPeriodic(cid, tid, ns);
      assert Armed(op, model.cells[k], model.now) == Cell(Periodic, ns, Add64(currentTime, ns));
      ArmTimer(t, k, Cell(Periodic, ns, Add64(currentTime, ns)));
      return 0;
    }

    method Stop(cid: nat, tid: int) returns (ret: int)
      requires Valid() && CanStep(model, TimerModel.Stop(cid, tid))
      modifies this`timerHead, this`list, this`model, nodes
      ensures Valid() && model == Step(old(model), TimerModel.Stop(cid, tid))
      ensures ret == if 0 <= tid < timersPerClient then 0 else -1
      ensures ret == 0 ==> clients[cid].timers[tid].timerType == Off
    {
      if tid >= timersPerClient || tid < 0 {
        return -1;
      }
      var t := clients[cid].timers[tid];
      ghost var k := Key(cid, tid);
      Attach(k);
      if t.timerType != Off {
        UnlinkTimer(t, k);
        DisarmTimer(t, k);
      }
      return 0;
    }

    method Completed(cid: nat) returns (ret: bv32)
      requires Valid() && CanStep(model, TimerModel.Completed(cid))
      modifies this`model, states`completed
      ensures Valid() && model == Step(old(model), TimerModel.Completed(cid))
      ensures WordIs(ret, old(model).words[cid])
    {
      WordZero();
      ret := clients[cid].completed;
      clients[cid].completed := 0;
      model := Step(model, TimerModel.Completed(cid));
    }

    method Time() returns (ret: nat)
      requires Valid()
      ensures ret == model.now
    {
      ret := currentTime;
    }

    // ------------------------------------------------------------------- proof

    /** A timer that is off counts as unlinked. */
    lemma Attach(k: Key)
      requires Valid() && HasKey(k)
      ensures k in model.cells && Mirrors(TimerAt(k), model.cells[k])
      ensures k in model.queue <==> TimerAt(k).timerType != Off
      ensures k !in model.queue ==> Detached(k)
    {
    }

    lemma DisarmedAgrees(k: Key)
      requires Shape() && Agrees(model) && CellsAgree(model.cells, {k}) && HasKey(k) && k in model.cells
      requires Mirrors(TimerAt(k), model.cells[k].(kind := Off))
      ensures Agrees(Disarm(model, k)) && CellsAgree(Disarm(model, k).cells, {})
    {
    }
  }

  lemma {:induction false} PositionIs(cells: map<Key, Cell>, q: seq<Key>, d: nat, p: nat)
    requires p <= |q|
    requires forall i | 0 <= i < p :: DeadlineOf(cells, q[i]) < d
    requires p < |q| ==> d <= DeadlineOf(cells, q[p])
    ensures Position(cells, q, d) == p
  {
    if p > 0 {
      PositionIs(cells, q[1..], d, p - 1);
    }
  }
}
