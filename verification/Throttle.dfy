/** Buffers shared between the discovery thread and any number of archiver threads: who holds a reference, what
    the counter of live buffers says, and why no queue ever fills up. */
module Throttle {
  import opened Particulars

  // What the discovery thread is doing.
  datatype Phase =
    | Idle
    | Allowed                                  // the counter was low enough
    | Offering(id: nat, k: nat)                // holds buffer `id`, archivers below `k` have been offered it
    | Deciding(id: nat, k: nat, room: bool)    // has looked at the queue length of archiver `k`

  // One archiver: its queue, and the buffer it is processing.
  datatype Archiver = Archiver(queue: seq<nat>, busy: bool, current: nat, taken: seq<nat>)

  datatype State = State(discovery: Phase, archivers: seq<Archiver>, counter: int, created: nat, refused: nat)

  predicate Holds(a: Archiver, id: nat) {
    id in a.queue || (a.busy && a.current == id)
  }

  predicate DiscoveryHolds(p: Phase, id: nat) {
    (p.Offering? || p.Deciding?) && p.id == id
  }

  predicate Referenced(s: State, id: nat) {
    DiscoveryHolds(s.discovery, id) || exists k :: 0 <= k < |s.archivers| && Holds(s.archivers[k], id)
  }

  function Live(s: State): set<nat> {
    set id | 0 <= id < s.created && Referenced(s, id)
  }

  // The destructor runs when the last reference goes, and decrements the counter.
  function Dropped(s: State, id: nat): State {
    if Referenced(s, id) then s else s.(counter := s.counter - 1)
  }

  datatype Step =
    | Check                // processUPMUdata tests the counter
    | Skip                 // the file is still being written
    | Create               // a file is read and a buffer is made
    | Look                 // dataBufferOffer reads the queue length
    | Push                 // dataBufferOffer accepts or refuses
    | Release              // postProcessUPMUdata drops its reference
    | Dequeue(k: nat)      // archiver `k` takes the first buffer of its queue
    | Finish(k: nat)       // archiver `k` drops the buffer it has taken

  predicate Enabled(s: State, step: Step) {
    match step
    case Check => s.discovery.Idle?
    case Skip => s.discovery.Allowed?
    case Create => s.discovery.Allowed?
    case Look => s.discovery.Offering? && s.discovery.k < |s.archivers|
    case Push => s.discovery.Deciding? && s.discovery.k < |s.archivers|
    case Release => s.discovery.Offering? && s.discovery.k >= |s.archivers|
    case Dequeue(k) => k < |s.archivers| && !s.archivers[k].busy && s.archivers[k].queue != []
    case Finish(k) => k < |s.archivers| && s.archivers[k].busy
  }

  function Next(s: State, step: Step): State
    requires Enabled(s, step)
  {
    match step
    case Check =>
      if s.counter <= MAX_OUTSTANDING_MEM_BUF then s.(discovery := Allowed) else s
    case Skip =>
      s.(discovery := Idle)
    case Create =>
      s.(discovery := Offering(s.created, 0), created := s.created + 1, counter := s.counter + 1)
    case Look =>
      var room := DATA_QUEUE_LEN - |s.archivers[s.discovery.k].queue| != 0;
      s.(discovery := Deciding(s.discovery.id, s.discovery.k, room))
    case Push =>
      var p, a := s.discovery, s.archivers[s.discovery.k];
      var after := s.(discovery := Offering(p.id, p.k + 1));
      if p.room then
        after.(archivers := s.archivers[p.k := a.(queue := a.queue + [p.id], taken := a.taken + [p.id])])
      else after.(refused := s.refused + 1)
    case Release =>
      Dropped(s.(discovery := Idle), s.discovery.id)
    case Dequeue(k) =>
      var a := s.archivers[k];
      s.(archivers := s.archivers[k := a.(queue := a.queue[1..], busy := true, current := a.queue[0])])
    case Finish(k) =>
      var a := s.archivers[k];
      Dropped(s.(archivers := s.archivers[k := a.(busy := false)]), a.current)
  }

  // ---- The invariant ----

  // How many of the buffers made so far archiver `k` has been offered.
  function Offered(s: State, k: nat): int {
    match s.discovery
    case Idle => s.created
    case Allowed => s.created
    case Offering(id, n) => if k < n then s.created else s.created - 1
    case Deciding(id, n, _) => if k < n then s.created else s.created - 1
  }

  // Archiver `k` has taken every buffer it was offered, in the order they were made; what it still holds is the end
  // of that.
  ghost predicate InOrder(s: State, k: nat)
    requires k < |s.archivers|
  {
    var a := s.archivers[k];
    && |a.taken| == Offered(s, k)
    && (forall i :: 0 <= i < |a.taken| ==> a.taken[i] == i)
    && |a.queue| <= |a.taken| && (forall i :: 0 <= i < |a.queue| ==> a.queue[i] == |a.taken| - |a.queue| + i)
    && (a.busy ==> |a.queue| < |a.taken| && a.current == |a.taken| - |a.queue| - 1)
  }

  ghost predicate Inv(s: State) {
    && s.refused == 0
    && s.counter == |Live(s)|
    && s.counter <= MAX_OUTSTANDING_MEM_BUF + 1
    && (s.discovery.Allowed? ==> s.counter <= MAX_OUTSTANDING_MEM_BUF)
    && (s.discovery.Offering? || s.discovery.Deciding? ==> s.discovery.id + 1 == s.created)
    && (s.discovery.Deciding? ==> s.discovery.k < |s.archivers| && s.discovery.room)
    && forall k: nat :: k < |s.archivers| ==> InOrder(s, k)
  }

  function Start(n: nat): State {
    State(Idle, seq(n, _ => Archiver([], false, 0, [])), 0, 0, 0)
  }

  // ---- Each step keeps it ----

  lemma {:induction false} SameLive(s: State, t: State)
    requires s.created == t.created && forall id: nat :: Referenced(s, id) <==> Referenced(t, id)
    ensures Live(s) == Live(t)
  {
  }

  // A reference to `id` is given up: the counter follows the set of live buffers.
  lemma {:induction false} DropKeepsCount(s: State, t: State, id: nat)
    requires s.created == t.created && s.counter == t.counter == |Live(s)|
    requires id < s.created && Referenced(s, id)
    requires forall i: nat :: i != id ==> (Referenced(s, i) <==> Referenced(t, i))
    ensures Dropped(t, id).counter == |Live(Dropped(t, id))| <= s.counter
  {
    var d := Dropped(t, id);
    if Referenced(t, id) {
      assert Live(d) == Live(s);
    } else {
      assert Live(d) == Live(s) - {id};
    }
  }

  lemma {:induction false} CreateKeepsCount(s: State)
    requires s.discovery.Allowed? && s.counter == |Live(s)|
    ensures var t := Next(s, Create); t.counter == |Live(t)|
  {
    var t := Next(s, Create);
    forall id: nat | id < s.created
      ensures Referenced(s, id) <==> Referenced(t, id)
    {
    }
    assert Live(t) == Live(s) + {s.created};
  }

  lemma {:induction false} Interval(lo: nat, n: nat, live: set<nat>)
    requires forall i: nat :: lo <= i < lo + n ==> i in live
    ensures n <= |live|
  {
    if n > 0 {
      Interval(lo, n - 1, live - {lo + n - 1});
    }
  }

  // Every queue is short: what is queued is live, and few buffers are.
  lemma {:induction false} QueueIsShort(s: State, k: nat)
    requires Inv(s) && k < |s.archivers|
    ensures |s.archivers[k].queue| <= s.counter <= MAX_OUTSTANDING_MEM_BUF + 1 < DATA_QUEUE_LEN
  {
    assert InOrder(s, k);
    var a := s.archivers[k];
    var lo := |a.taken| - |a.queue|;
    forall i: nat | lo <= i < lo + |a.queue|
      ensures i in Live(s)
    {
      assert a.queue[i - lo] == i;
      assert Holds(a, i);
    }
    Interval(lo, |a.queue|, Live(s));
  }

  lemma {:induction false} PushReferences(s: State, id: nat)
    requires Enabled(s, Push) && s.discovery.room
    ensures Referenced(Next(s, Push), id) <==> Referenced(s, id)
  {
    var t, p := Next(s, Push), s.discovery;
    forall k | 0 <= k < |s.archivers|
      ensures Holds(t.archivers[k], id) <==> Holds(s.archivers[k], id) || (k == p.k && id == p.id)
    {
    }
  }

  lemma {:induction false} DequeueReferences(s: State, k: nat, id: nat)
    requires Enabled(s, Dequeue(k))
    ensures Referenced(Next(s, Dequeue(k)), id) <==> Referenced(s, id)
  {
    var t, a := Next(s, Dequeue(k)), s.archivers[k];
    assert a.queue == [a.queue[0]] + a.queue[1..];
    forall i | 0 <= i < |s.archivers|
      ensures Holds(t.archivers[i], id) <==> Holds(s.archivers[i], id)
    {
    }
  }

  lemma {:induction false} FinishReferences(s: State, k: nat, id: nat)
    requires Enabled(s, Finish(k)) && id != s.archivers[k].current
    ensures var t := s.(archivers := s.archivers[k := s.archivers[k].(busy := false)]);
            Referenced(t, id) <==> Referenced(s, id)
  {
    var t := s.(archivers := s.archivers[k := s.archivers[k].(busy := false)]);
    forall i | 0 <= i < |s.archivers|
      ensures Holds(t.archivers[i], id) <==> Holds(s.archivers[i], id)
    {
    }
  }

  lemma {:induction false} CountKept(s: State, step: Step)
    requires Inv(s) && Enabled(s, step)
    ensures var t := Next(s, step);
            && t.counter == |Live(t)| && t.counter <= MAX_OUTSTANDING_MEM_BUF + 1
            && (step != Create ==> t.counter <= s.counter)
  {
    var t := Next(s, step);
    match step
    case Check => SameLive(s, t);
    case Skip => SameLive(s, t);
    case Create => CreateKeepsCount(s);
    case Look => SameLive(s, t);
    case Push =>
      forall id: nat ensures Referenced(s, id) <==> Referenced(t, id) { PushReferences(s, id); }
      SameLive(s, t);
    case Release =>
      DropKeepsCount(s, s.(discovery := Idle), s.discovery.id);
    case Dequeue(k) =>
      forall id: nat ensures Referenced(s, id) <==> Referenced(t, id) { DequeueReferences(s, k, id); }
      SameLive(s, t);
    case Finish(k) =>
      var a := s.archivers[k];
      forall id: nat | id != a.current
        ensures Referenced(s, id) <==> Referenced(s.(archivers := s.archivers[k := a.(busy := false)]), id)
      {
        FinishReferences(s, k, id);
      }
      assert InOrder(s, k) && Holds(a, a.current);
      DropKeepsCount(s, s.(archivers := s.archivers[k := a.(busy := false)]), a.current);
  }

  lemma {:induction false} OrderKept(s: State, step: Step, k: nat)
    requires Inv(s) && Enabled(s, step) && k < |s.archivers|
    ensures InOrder(Next(s, step), k)
  {
    assert InOrder(s, k);
    hide Live, Referenced;
  }

  lemma {:induction false} InvKept(s: State, step: Step)
    requires Inv(s) && Enabled(s, step)
    ensures Inv(Next(s, step))
  {
    var t := Next(s, step);
    CountKept(s, step);
    if step == Look {
      QueueIsShort(s, s.discovery.k);
    }
    hide Live, Referenced, InOrder;
    forall k: nat | k < |t.archivers|
      ensures InOrder(t, k)
    {
      OrderKept(s, step, k);
    }
  }

  // ---- Whole runs ----

  ghost predicate IsRun(n: nat, states: seq<State>, steps: seq<Step>) {
    && |states| == |steps| + 1 && states[0] == Start(n)
    && forall i :: 0 <= i < |steps| ==> Enabled(states[i], steps[i]) && states[i + 1] == Next(states[i], steps[i])
  }

  lemma {:induction false} RunKeepsInv(n: nat, states: seq<State>, steps: seq<Step>, i: nat)
    requires IsRun(n, states, steps) && i < |states|
    ensures Inv(states[i])
  {
    if i == 0 {
      assert Live(states[0]) == {};
    } else {
      RunKeepsInv(n, states, steps, i - 1);
      InvKept(states[i - 1], steps[i - 1]);
    }
  }

  // In every interleaving, with any number of archivers, whether or not they ever run: the counter is the number
  // of buffers that are still referenced, it never exceeds six, queues stay far below their bound, no offer is
  // refused, and every archiver has taken the buffers in the order they were made.
  lemma {:induction false} RefusalIsUnreachable(n: nat, states: seq<State>, steps: seq<Step>, i: nat, k: nat)
    requires IsRun(n, states, steps) && i < |states| && k < |states[i].archivers|
    ensures states[i].counter == |Live(states[i])| <= 6
    ensures |states[i].archivers[k].queue| <= 6
    ensures states[i].refused == 0
    ensures |states[i].archivers[k].taken| == Offered(states[i], k)
    ensures forall j :: 0 <= j < |states[i].archivers[k].taken| ==> states[i].archivers[k].taken[j] == j
  {
    RunKeepsInv(n, states, steps, i);
    QueueIsShort(states[i], k);
    assert InOrder(states[i], k);
  }
}
