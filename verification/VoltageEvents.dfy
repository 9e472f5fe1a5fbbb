/** What a voltage event is, without reference to any windowing: the samples of one phase are read once, from
    left to right, and every maximal run of abnormal samples yields its events. */
module VoltageEvents {
  // A run longer than OVER samples is cut into pieces of OVER samples (60 seconds at 120 samples a second).
  const OVER := 120 * 60
  // A sag is labelled only when it lasts for more than MAX_WDW_SAG samples.
  const MAX_WDW_SAG := 3

  datatype Class = Normal | Sag | Interruption | Swell

  function Classify(v: real): Class {
    if 0.1 <= v && v <= 0.9 then Sag
    else if v < 0.1 then Interruption
    else if v >= 1.1 then Swell
    else Normal
  }

  datatype Description =
    VoltageSag | UnderVoltage | BriefInterruption | SustainedInterruption | VoltageSwell | OverVoltage

  datatype Event = Event(start: int, end: int, description: Description)

  // How a piece of abnormal samples is described, and how one that outlasts the cap is.
  function Label(c: Class): Description
    requires c != Normal
  {
    match c
    case Sag => VoltageSag
    case Interruption => BriefInterruption
    case Swell => VoltageSwell
  }

  function CapLabel(c: Class): Description
    requires c != Normal
  {
    match c
    case Sag => UnderVoltage
    case Interruption => SustainedInterruption
    case Swell => OverVoltage
  }

  // The event, if any, of a piece of `count` samples of class `c` that ends just before position `end`.
  function PieceEvents(c: Class, count: nat, end: int): seq<Event> {
    if c == Normal || count == 0 || (c == Sag && count <= MAX_WDW_SAG) then []
    else [Event(end - count - 1, end, Label(c))]
  }

  // The event of a run that is still going on at `pos` after a full piece of OVER samples.
  function CapEvent(c: Class, pos: int): Event
    requires c != Normal
  {
    Event(pos - (OVER + 1) - 1, pos, CapLabel(c))
  }

  // The one-pass detector: events that can no longer change, and the piece the samples end with.
  datatype Trail = Trail(settled: seq<Event>, cls: Class, count: nat) {
    function Pending(pos: int): seq<Event> {
      PieceEvents(cls, count, pos)
    }
  }

  function Advance(t: Trail, pos: nat, c: Class): Trail {
    if c == t.cls && c != Normal then
      if t.count < OVER then t.(count := t.count + 1) else Trail(t.settled + [CapEvent(c, pos)], c, 1)
    else
      Trail(t.settled + t.Pending(pos), c, if c == Normal then 0 else 1)
  }

  function OnePass(xs: seq<real>): (t: Trail)
    ensures t.count <= OVER && (t.count == 0 <==> t.cls == Normal)
    ensures t.cls == if xs == [] then Normal else Classify(xs[|xs| - 1])
  {
    if xs == [] then Trail([], Normal, 0)
    else Advance(OnePass(xs[..|xs| - 1]), |xs| - 1, Classify(xs[|xs| - 1]))
  }

  function EventsOf(xs: seq<real>): seq<Event> {
    OnePass(xs).settled + OnePass(xs).Pending(|xs|)
  }

  lemma {:induction false} OnePassSnoc(xs: seq<real>, x: real)
    ensures OnePass(xs + [x]) == Advance(OnePass(xs), |xs|, Classify(x))
  {
    assert (xs + [x])[..|xs|] == xs;
  }

  // ---- The events read off the maximal runs of equal class ----

  // Length of the run of equal class that `xs` ends with.
  function TrailingRun(xs: seq<real>): (n: nat)
    ensures n <= |xs| && (xs != [] ==> n >= 1)
  {
    if |xs| <= 1 then |xs|
    else if Classify(xs[|xs| - 1]) == Classify(xs[|xs| - 2]) then 1 + TrailingRun(xs[..|xs| - 1])
    else 1
  }

  // Events of a complete run of `len` samples of class `c` that begins at `from`.
  function RunEvents(c: Class, from: int, len: nat): seq<Event>
    decreases len
  {
    if c == Normal then []
    else if len <= OVER then PieceEvents(c, len, from + len)
    else [CapEvent(c, from + OVER)] + RunEvents(c, from + OVER, len - OVER)
  }

  function EventsOfRuns(xs: seq<real>): seq<Event>
    decreases |xs|
  {
    if xs == [] then []
    else
      var n := TrailingRun(xs);
      EventsOfRuns(xs[..|xs| - n]) + RunEvents(Classify(xs[|xs| - 1]), |xs| - n, n)
  }

  // Cap events of a run that is still going on: one for each full piece that has been overtaken.
  function Caps(c: Class, from: int, len: nat): seq<Event>
    decreases len
  {
    if c == Normal || len <= OVER then []
    else [CapEvent(c, from + OVER)] + Caps(c, from + OVER, len - OVER)
  }

  // What is left of a run of `len` samples once its full pieces have been cut off.
  function LastPiece(len: nat): (n: nat)
    requires len > 0
    ensures 0 < n <= OVER
    decreases len
  {
    if len <= OVER then len else LastPiece(len - OVER)
  }

  lemma {:induction false} LastPieceIsModulo(len: nat)
    requires len > 0
    ensures LastPiece(len) == (len - 1) % OVER + 1
    decreases len
  {
    if len > OVER {
      LastPieceIsModulo(len - OVER);
    }
  }

  // The one-pass state inside a run of `len` samples of class `c` that begins at `from`.
  ghost predicate InRun(t: Trail, before: seq<Event>, c: Class, from: int, len: nat)
    requires len > 0
  {
    t == if c == Normal then Trail(before, c, 0) else Trail(before + Caps(c, from, len), c, LastPiece(len))
  }

  lemma {:induction false} RunGrows(t: Trail, before: seq<Event>, c: Class, from: nat, len: nat, pos: nat)
    requires len > 0 && c != Normal && InRun(t, before, c, from, len) && pos == from + len
    ensures InRun(Advance(t, pos, c), before, c, from, len + 1)
    decreases len
  {
    if len > OVER {
      var cap := [CapEvent(c, from + OVER)];
      assert before + Caps(c, from, len) == before + cap + Caps(c, from + OVER, len - OVER);
      RunGrows(t, before + cap, c, from + OVER, len - OVER, pos);
      assert before + Caps(c, from, len + 1) == before + cap + Caps(c, from + OVER, len + 1 - OVER);
    }
  }

  lemma {:induction false} RunCloses(t: Trail, before: seq<Event>, c: Class, from: nat, len: nat, pos: nat)
    requires len > 0 && InRun(t, before, c, from, len) && pos == from + len
    ensures t.settled + t.Pending(pos) == before + RunEvents(c, from, len)
    decreases len
  {
    if c != Normal && len > OVER {
      var cap := [CapEvent(c, from + OVER)];
      assert before + Caps(c, from, len) == before + cap + Caps(c, from + OVER, len - OVER);
      RunCloses(t, before + cap, c, from + OVER, len - OVER, pos);
    }
  }

  // The invariant of the one-pass detector: it is inside the run that starts at `from`.
  ghost predicate InsideRun(xs: seq<real>, from: nat) {
    from < |xs| && InRun(OnePass(xs), EventsOfRuns(xs[..from]), OnePass(xs).cls, from, |xs| - from)
  }

  lemma {:induction false} LastRun(xs: seq<real>, from: nat)
    requires from < |xs| && from == |xs| - TrailingRun(xs)
    ensures EventsOfRuns(xs) == EventsOfRuns(xs[..from]) + RunEvents(Classify(xs[|xs| - 1]), from, |xs| - from)
  {
  }

  lemma {:induction false} RunGoesOn(xs: seq<real>, ys: seq<real>, from: nat)
    requires |xs| == |ys| + 1 && ys == xs[..|ys|]
    requires InsideRun(ys, from) && OnePass(xs).cls == OnePass(ys).cls
    ensures InsideRun(xs, from)
  {
    var t, c := OnePass(ys), OnePass(ys).cls;
    assert OnePass(xs) == Advance(t, |ys|, c);
    assert xs[..from] == ys[..from];
    if c != Normal {
      RunGrows(t, EventsOfRuns(ys[..from]), c, from, |ys| - from, |ys|);
    }
  }

  lemma {:induction false} RunChanges(xs: seq<real>, ys: seq<real>, from: nat)
    requires |xs| == |ys| + 1 && ys == xs[..|ys|]
    requires InsideRun(ys, from) && from == |ys| - TrailingRun(ys) && OnePass(xs).cls != OnePass(ys).cls
    ensures InsideRun(xs, |ys|)
  {
    var t, c := OnePass(ys), OnePass(xs).cls;
    assert OnePass(xs) == Advance(t, |ys|, c);
    assert InRun(Advance(t, |ys|, c), EventsOfRuns(ys), c, |ys|, 1) by {
      RunCloses(t, EventsOfRuns(ys[..from]), t.cls, from, |ys| - from, |ys|);
      LastRun(ys, from);
    }
  }

  lemma {:induction false} OnePassByRuns(xs: seq<real>)
    requires xs != []
    ensures InsideRun(xs, |xs| - TrailingRun(xs))
    decreases |xs|
  {
    var ys := xs[..|xs| - 1];
    if ys == [] {
      FirstRun(xs);
    } else {
      OnePassByRuns(ys);
      hide OnePass, EventsOfRuns, InsideRun;
      var from := |ys| - TrailingRun(ys);
      if OnePass(xs).cls == OnePass(ys).cls {
        RunGoesOn(xs, ys, from);
      } else {
        RunChanges(xs, ys, from);
      }
    }
  }

  lemma {:induction false} FirstRun(xs: seq<real>)
    requires |xs| == 1
    ensures InsideRun(xs, 0)
  {
    assert OnePass(xs) == Advance(OnePass([]), 0, OnePass(xs).cls);
    assert xs[..0] == [];
  }

  // The one-pass detector finds exactly the events of the maximal runs.
  lemma {:induction false} OnePassMeaning(xs: seq<real>)
    ensures EventsOf(xs) == EventsOfRuns(xs)
  {
    if xs != [] {
      OnePassByRuns(xs);
      var from, t := |xs| - TrailingRun(xs), OnePass(xs);
      RunCloses(t, EventsOfRuns(xs[..from]), t.cls, from, |xs| - from, |xs|);
      LastRun(xs, from);
    }
  }

  // The counter it ends with is the length of the trailing run, modulo the cap.
  lemma {:induction false} CounterMeaning(xs: seq<real>)
    requires OnePass(xs).cls != Normal
    ensures OnePass(xs).count == (TrailingRun(xs) - 1) % OVER + 1
  {
    OnePassByRuns(xs);
    LastPieceIsModulo(TrailingRun(xs));
  }
}
