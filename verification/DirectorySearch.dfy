/** The search for the directory to start from, on hours and looks alone: when it stays behind the clock, and when it
    ends. */
module DirectorySearch {
  import opened DataDirectory

  datatype Probe = Present | Absent | NoResponse

  // One turn of the search: the clock before the probe, the answer, and the clock after it.
  datatype Look = Look(before: nat, probe: Probe, after: nat)

  datatype Search =
    | Searching(hour: int, state: DirState)  // still in the loop
    | Found(hour: int, isNew: bool)          // present, and now the current directory; a new row if it was proposed
    | Waiting(hour: int)                     // the search has caught up with the clock
    | NoAnswer(hour: int, state: DirState)   // the server does not respond
    | NoDirectory(hour: int)                 // nothing after the last processed one

  function Turn(hour: int, state: DirState, look: Look): Search {
    var h := if state == Processed then hour + 1 else hour;
    var s := if state == Processed then Proposed else state;
    if state == Processed && h == HourOf(look.before) then NoDirectory(h)
    else
      match look.probe
      case NoResponse => NoAnswer(h, s)
      case Present => Found(h, s == Proposed)
      case Absent => if h + 1 == HourOf(look.after) then Waiting(h + 1) else Searching(h + 1, Proposed)
  }

  function Run(hour: int, state: DirState, looks: seq<Look>): Search
    decreases |looks|
  {
    if looks == [] then Searching(hour, state)
    else
      var r := Turn(hour, state, looks[0]);
      if r.Searching? then Run(r.hour, r.state, looks[1..]) else r
  }

  // The clock does not go back.
  ghost predicate Clocked(since: nat, looks: seq<Look>)
    decreases |looks|
  {
    looks == [] || (since <= looks[0].before <= looks[0].after && Clocked(looks[0].after, looks[1..]))
  }

  lemma {:induction false} HourMonotone(a: nat, b: nat)
    requires a <= b
    ensures HourOf(a) <= HourOf(b)
    ensures b >= HourOf(a) * 3600
  {
  }

  // The clock when the search ends.
  function EndClock(hour: int, state: DirState, since: nat, looks: seq<Look>): nat
    decreases |looks|
  {
    if looks == [] then since
    else
      var r := Turn(hour, state, looks[0]);
      if r.Searching? then EndClock(r.hour, r.state, looks[0].after, looks[1..]) else looks[0].after
  }

  // After every turn the directory is not ahead of the clock.
  ghost predicate NeverAhead(hour: int, state: DirState, looks: seq<Look>)
    decreases |looks|
  {
    looks == [] ||
    var r := Turn(hour, state, looks[0]);
    r.hour <= HourOf(looks[0].after) && (r.Searching? ==> NeverAhead(r.hour, r.state, looks[1..]))
  }

  lemma {:induction false} BehindStaysBehind(hour: int, state: DirState, since: nat, looks: seq<Look>)
    requires Clocked(since, looks) && hour < HourOf(since)
    ensures NeverAhead(hour, state, looks)
    ensures Run(hour, state, looks).hour <= HourOf(EndClock(hour, state, since, looks))
    decreases |looks|
  {
    if looks != [] {
      var r := Turn(hour, state, looks[0]);
      if r.Searching? {
        assert r.hour < HourOf(looks[0].after);
        BehindStaysBehind(r.hour, r.state, looks[0].after, looks[1..]);
      }
    }
  }

  // From any start: the search stays behind the clock if and only if it starts before it, or the first turn, which does
  // not look at the clock before it moves, ends on an hour that the clock has reached by then.
  lemma {:induction false} NeverAheadIff(hour: int, state: DirState, looks: seq<Look>)
    requires looks != [] && Clocked(looks[0].before, looks)
    ensures NeverAhead(hour, state, looks) <==> StaysBehind(hour, state, looks[0])
  {
    if hour < HourOf(looks[0].before) {
      BehindStaysBehind(hour, state, looks[0].before, looks);
    } else {
      var r := Turn(hour, state, looks[0]);
      if r.Searching? && r.hour < HourOf(looks[0].after) {
        BehindStaysBehind(r.hour, r.state, looks[0].after, looks[1..]);
      }
    }
  }

  predicate StaysBehind(hour: int, state: DirState, look: Look) {
    || hour < HourOf(look.before)
    || hour + (if state == Processed then 1 else 0) + (if look.probe == Absent then 1 else 0) <= HourOf(look.after)
  }

  // Where a search may start: exactly where it stays behind the clock.
  predicate MayStart(hour: int, state: DirState, now: nat, looks: seq<Look>) {
    if looks == [] then hour <= HourOf(now) else StaysBehind(hour, state, looks[0])
  }

  lemma {:induction false} SearchEndsBehind(hour: int, state: DirState, since: nat, looks: seq<Look>)
    requires Clocked(since, looks) && MayStart(hour, state, since, looks)
    ensures Run(hour, state, looks).hour <= HourOf(EndClock(hour, state, since, looks))
  {
    if looks != [] {
      if hour < HourOf(looks[0].before) {
        BehindStaysBehind(hour, state, looks[0].before, looks);
      } else {
        var r := Turn(hour, state, looks[0]);
        if r.Searching? {
          BehindStaysBehind(r.hour, r.state, looks[0].after, looks[1..]);
        }
      }
    }
  }

  // ---- How long the search takes ----

  // From a start behind the clock, every turn that does not end the search moves one hour on, so the hours left to the
  // clock bound their number.
  lemma {:induction false} PastIsBounded(hour: int, state: DirState, since: nat, looks: seq<Look>)
    requires Clocked(since, looks) && hour < HourOf(since)
    requires Run(hour, state, looks).Searching?
    ensures |looks| <= Run(hour, state, looks).hour - hour
    ensures Run(hour, state, looks).hour < HourOf(EndClock(hour, state, since, looks))
    decreases |looks|
  {
    if looks != [] {
      var r := Turn(hour, state, looks[0]);
      assert r.hour > hour && r.hour < HourOf(looks[0].after);
      PastIsBounded(r.hour, r.state, looks[0].after, looks[1..]);
    }
  }

  // The same from every start from which the search stays behind the clock: after its first turn it is behind.
  lemma {:induction false} SearchIsBounded(hour: int, state: DirState, looks: seq<Look>)
    requires looks != [] && Clocked(looks[0].before, looks) && StaysBehind(hour, state, looks[0])
    requires Run(hour, state, looks).Searching?
    ensures |looks| <= Run(hour, state, looks).hour - hour
    ensures Run(hour, state, looks).hour < HourOf(EndClock(hour, state, looks[0].before, looks))
  {
    if hour < HourOf(looks[0].before) {
      PastIsBounded(hour, state, looks[0].before, looks);
    } else {
      var r := Turn(hour, state, looks[0]);
      PastIsBounded(r.hour, r.state, looks[0].after, looks[1..]);
    }
  }

  // The directory stays absent and the clock stands.
  function Standing(now: nat, n: nat): (r: seq<Look>)
    ensures |r| == n && forall look <- r :: look == Look(now, Absent, now)
  {
    seq(n, _ => Look(now, Absent, now))
  }

  lemma {:induction false} StandingIsClocked(now: nat, n: nat)
    ensures Clocked(now, Standing(now, n))
  {
    if n > 0 {
      assert Standing(now, n)[1..] == Standing(now, n - 1);
      StandingIsClocked(now, n - 1);
    }
  }

  // A search that is not behind a standing clock and finds nothing goes on for ever, hour after hour.
  lemma {:induction false} SearchRunsAhead(hour: int, now: nat, n: nat)
    requires hour >= HourOf(now)
    ensures Run(hour, Proposed, Standing(now, n)) == Searching(hour + n, Proposed)
    decreases n
  {
    if n > 0 {
      assert Standing(now, n)[0] == Look(now, Absent, now) && Standing(now, n)[1..] == Standing(now, n - 1);
      SearchRunsAhead(hour + 1, now, n - 1);
    }
  }

  // Nothing but the first look ever ends the search, as long as the directory is absent and the clock stands.
  ghost predicate Endless(hour: int, state: DirState, look: Look) {
    forall n: nat :: Run(hour, state, [look] + Standing(look.after, n)).Searching?
  }

  lemma {:induction false} AfterFirst(hour: int, state: DirState, look: Look, n: nat)
    ensures var r := Turn(hour, state, look);
            Run(hour, state, [look] + Standing(look.after, n)) ==
              if r.Searching? then Run(r.hour, r.state, Standing(look.after, n)) else r
  {
    assert ([look] + Standing(look.after, n))[1..] == Standing(look.after, n);
  }

  lemma {:induction false} StandingEndClock(hour: int, state: DirState, now: nat, n: nat)
    ensures EndClock(hour, state, now, Standing(now, n)) == now
    decreases n
  {
    if n > 0 {
      assert Standing(now, n)[0] == Look(now, Absent, now) && Standing(now, n)[1..] == Standing(now, n - 1);
      var r := Turn(hour, state, Look(now, Absent, now));
      if r.Searching? {
        StandingEndClock(r.hour, r.state, now, n - 1);
      }
    }
  }

  // The search can go on without end exactly when its first turn finds nothing and takes it past the clock.
  lemma {:induction false} SearchIsEndlessIff(hour: int, state: DirState, look: Look)
    requires look.before <= look.after
    ensures Endless(hour, state, look) <==> look.probe == Absent && !StaysBehind(hour, state, look)
  {
    var r := Turn(hour, state, look);
    AfterFirst(hour, state, look, 0);
    if !r.Searching? {
      assert !Run(hour, state, [look] + Standing(look.after, 0)).Searching?;
    } else if StaysBehind(hour, state, look) {
      var n := HourOf(look.after) - r.hour;
      var m := if n > 0 then n else 0;
      AfterFirst(hour, state, look, m);
      StandingIsClocked(look.after, m);
      StandingEndClock(r.hour, r.state, look.after, m);
      if Run(r.hour, r.state, Standing(look.after, m)).Searching? {
        PastIsBounded(r.hour, r.state, look.after, Standing(look.after, m));
      }
      assert !Run(hour, state, [look] + Standing(look.after, m)).Searching?;
    } else {
      forall n: nat
        ensures Run(hour, state, [look] + Standing(look.after, n)).Searching?
      {
        AfterFirst(hour, state, look, n);
        SearchRunsAhead(r.hour, look.after, n);
      }
    }
  }
}
