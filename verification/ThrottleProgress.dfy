/** That the shared buffers get on: whatever the threads do, what has been made is handed out, taken and given back, and
    the next buffer can be made. */
module ThrottleProgress {
  import opened Particulars
  import opened Throttle

  // How far the discovery thread is from its next look at the counter.
  function Ahead(s: State): nat {
    var n := |s.archivers|;
    match s.discovery
    case Idle => 0
    case Allowed => 2 * n + 3
    case Offering(_, k) => if k < n then 2 * (n - k) + 1 else 1
    case Deciding(_, k, _) => if k < n then 2 * (n - k) else 0
  }

  // What the archivers still have to take up or put down.
  function Held(archivers: seq<Archiver>): nat {
    if archivers == [] then 0
    else
      var a := archivers[|archivers| - 1];
      Held(archivers[..|archivers| - 1]) + 2 * |a.queue| + if a.busy then 1 else 0
  }

  lemma {:induction false} HeldChanges(archivers: seq<Archiver>, k: nat, a: Archiver)
    requires k < |archivers|
    ensures var b := archivers[k];
            Held(archivers[k := a]) + 2 * |b.queue| + (if b.busy then 1 else 0)
            == Held(archivers) + 2 * |a.queue| + if a.busy then 1 else 0
    decreases |archivers|
  {
    var n := |archivers| - 1;
    if k < n {
      HeldChanges(archivers[..n], k, a);
      assert archivers[k := a][..n] == archivers[..n][k := a];
    } else {
      assert archivers[k := a][..n] == archivers[..n];
    }
  }

  // Every step but a look at the counter brings the threads nearer to rest; and a look that is refused changes nothing.
  lemma {:induction false} StepsGetOn(s: State, step: Step)
    requires Enabled(s, step)
    ensures var t := Next(s, step);
            if step == Check then t == if s.counter <= 5 then s.(discovery := Allowed) else s
            else Ahead(t) < Ahead(s) || (Ahead(t) == Ahead(s) && Held(t.archivers) < Held(s.archivers))
  {
    match step
    case Dequeue(k) => HeldChanges(s.archivers, k, Next(s, step).archivers[k]);
    case Finish(k) => HeldChanges(s.archivers, k, Next(s, step).archivers[k]);
    case _ =>
  }

  // A buffer is made by the one step that makes it, and then offered to the first archiver.
  lemma {:induction false} OneMade(s: State, step: Step)
    requires Enabled(s, step)
    ensures Next(s, step).created == s.created + if step == Create then 1 else 0
    ensures step == Create ==> Next(s, step).discovery == Offering(s.created, 0)
  {
  }

  // An offer from any state, reached or not: the buffer goes to the end of the queue unless that holds sixteen, and
  // then the offer is refused; the next archiver is offered the buffer either way.
  lemma {:induction false} OfferIff(s: State)
    requires Enabled(s, Look)
    ensures Enabled(Next(s, Look), Push)
    ensures var p, k, t := s.discovery, s.discovery.k, Next(Next(s, Look), Push);
            var a := s.archivers[k];
            if |a.queue| == 16 then t == s.(discovery := Offering(p.id, k + 1), refused := s.refused + 1)
            else
              && t.refused == s.refused && t.discovery == Offering(p.id, k + 1) && |t.archivers| == |s.archivers|
              && t.archivers[k].queue == a.queue + [p.id] && t.archivers[k].taken == a.taken + [p.id]
              && forall i :: 0 <= i < |s.archivers| && i != k ==> t.archivers[i] == s.archivers[i]
  {
  }

  // Nobody can do anything but look at the counter.
  ghost predicate AtRest(s: State) {
    forall step :: Enabled(s, step) ==> step == Check
  }

  lemma {:induction false} RestIsIdle(s: State, k: nat)
    requires Inv(s) && AtRest(s) && k < |s.archivers|
    ensures s.discovery.Idle? && !s.archivers[k].busy && s.archivers[k].queue == []
  {
    assert !Enabled(s, Skip) && !Enabled(s, Look) && !Enabled(s, Push) && !Enabled(s, Release);
    assert !Enabled(s, Dequeue(k)) && !Enabled(s, Finish(k));
  }

  lemma {:induction false} RestIsIdleAlone(s: State)
    requires AtRest(s) && Inv(s)
    ensures s.discovery.Idle?
  {
    assert !Enabled(s, Skip) && !Enabled(s, Look) && !Enabled(s, Push) && !Enabled(s, Release);
  }

  // At rest every buffer has been taken by every archiver and given back, and the next one can be made.
  lemma {:induction false} RestIsDelivered(s: State)
    requires Inv(s) && AtRest(s)
    ensures s.counter == 0
    ensures forall k: nat :: k < |s.archivers| ==>
              |s.archivers[k].taken| == s.created && forall i :: 0 <= i < s.created ==> s.archivers[k].taken[i] == i
    ensures Enabled(s, Check) && Enabled(Next(s, Check), Create)
  {
    RestIsIdleAlone(s);
    forall k: nat | k < |s.archivers|
      ensures |s.archivers[k].taken| == s.created && forall i :: 0 <= i < s.created ==> s.archivers[k].taken[i] == i
    {
      assert InOrder(s, k);
    }
    forall id: nat
      ensures !Referenced(s, id)
    {
      forall k | 0 <= k < |s.archivers|
        ensures !Holds(s.archivers[k], id)
      {
        RestIsIdle(s, k);
      }
    }
    assert Live(s) == {};
  }

  // Steps other than looks at the counter, from one state to another. As each of them brings the threads nearer to
  // rest, they come to an end whoever goes first.
  ghost predicate Leads(s: State, steps: seq<Step>, t: State)
    decreases |steps|
  {
    if steps == [] then s == t
    else Enabled(s, steps[0]) && steps[0] != Check && Leads(Next(s, steps[0]), steps[1..], t)
  }

  lemma {:induction false} ReachesRest(s: State) returns (steps: seq<Step>, t: State)
    requires Inv(s)
    ensures Leads(s, steps, t) && AtRest(t) && Inv(t)
    decreases Ahead(s), Held(s.archivers)
  {
    if step :| Enabled(s, step) && step != Check {
      StepsGetOn(s, step);
      InvKept(s, step);
      var more, u := ReachesRest(Next(s, step));
      steps, t := [step] + more, u;
      assert steps[1..] == more;
    } else {
      steps, t := [], s;
    }
  }

  // From every state of every run, rest can be reached, where all that was made is delivered and a buffer more can be
  // made.
  lemma {:induction false} AlwaysGetsOn(n: nat, states: seq<State>, run: seq<Step>, i: nat)
    returns (steps: seq<Step>, t: State)
    requires IsRun(n, states, run) && i < |states|
    ensures Leads(states[i], steps, t) && AtRest(t) && t.counter == 0
    ensures Enabled(t, Check) && Enabled(Next(t, Check), Create)
    ensures forall k: nat :: k < |t.archivers| ==> |t.archivers[k].taken| == t.created
  {
    RunKeepsInv(n, states, run, i);
    steps, t := ReachesRest(states[i]);
    RestIsDelivered(t);
  }
}
