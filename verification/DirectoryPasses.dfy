/** The passes of the discovery thread, on values: what one pass does to the place it is at, and when every file is
    read only once. */
module DirectoryPasses {
  import opened DataDirectory
  import opened DirectorySearch
  import opened Particulars
  import opened StringOrder

  // A file that has been read, and the hour of its directory.
  datatype Read = Read(hour: int, file: string)

  // What one pass sees: what the server lists, the buffers in memory, whether the file is no longer written, whether
  // the next directory is there, and two readings of the clock.
  datatype Pass = Pass(listing: seq<string>, outstanding: nat, complete: bool, probe: Probe, now: nat, later: nat)

  // The directory of the thread, its two sets of files, and what has been read and opened since the start.
  datatype Place = Place(hour: int, state: DirState, open: bool, accessing: bool, pending: set<string>,
                         done: set<string>, fetched: seq<Read>, added: seq<int>)

  // ---- One pass ----

  // The age is computed on unsigned 32-bit integers.
  function Age(now: nat, time: int): nat {
    (now - time) % 0x1_0000_0000
  }

  // The sets of a directory just opened are cleared, and files are listed when none is left.
  function Listed(s: Place, listing: seq<string>): Place {
    var a := if s.accessing then s else s.(accessing := true, pending := {}, done := {});
    if a.pending == {} then a.(pending := set f <- listing | f !in a.done) else a
  }

  function ReadNext(s: Place): Place
    requires s.pending != {}
  {
    var file := Least(s.pending);
    s.(pending := s.pending - {file}, done := s.done + {file}, fetched := s.fetched + [Read(s.hour, file)])
  }

  function ReadIfReady(s: Place, p: Pass): Place {
    if s.pending != {} && p.outstanding <= MAX_OUTSTANDING_MEM_BUF && p.complete then ReadNext(s) else s
  }

  // A directory more than an hour old, with nothing left to read, is left.
  function LeftIfOld(s: Place, now: nat): Place {
    if s.pending == {} && Age(now, s.hour * 3600) > 60 * 60 then s.(open := false, accessing := false) else s
  }

  function OneFile(s: Place, p: Pass): Place {
    LeftIfOld(ReadIfReady(Listed(s, p.listing), p), p.now)
  }

  // The directory is released, and the next one proposed unless this one is of the hour the clock shows.
  function Released(s: Place, now: nat): Place {
    var a := if s.state == Current then s.(state := Unknown, accessing := false) else s;
    if a.hour == HourOf(now) then a else a.(hour := a.hour + 1, state := Proposed)
  }

  function OpenedIf(s: Place, probe: Probe): Place {
    if probe == Present then s.(state := Current, open := true, added := s.added + [s.hour]) else s
  }

  function Next(s: Place, p: Pass): Place {
    var a := if s.open then OneFile(s, p) else s;
    if a.open then a else OpenedIf(Released(a, p.later), p.probe)
  }

  function After(s: Place, passes: seq<Pass>): Place
    decreases |passes|
  {
    if passes == [] then s else After(Next(s, passes[0]), passes[1..])
  }

  // The clock does not go back.
  ghost predicate PassesClocked(since: nat, passes: seq<Pass>)
    decreases |passes|
  {
    passes == [] || (since <= passes[0].now <= passes[0].later && PassesClocked(passes[0].later, passes[1..]))
  }

  function LastClock(since: nat, passes: seq<Pass>): nat
    decreases |passes|
  {
    if passes == [] then since else LastClock(passes[0].later, passes[1..])
  }

  // One pass reads at most one file, from the directory it finds open, and none while too many buffers are in memory.
  lemma {:induction false} AtMostOneFile(s: Place, p: Pass)
    ensures var t := Next(s, p);
            || t.fetched == s.fetched
            || (s.open && p.outstanding <= MAX_OUTSTANDING_MEM_BUF && p.complete
                && exists f :: t.fetched == s.fetched + [Read(s.hour, f)])
  {
  }

  // ---- What every pass keeps ----

  ghost predicate Increasing(hours: seq<int>) {
    forall i, j :: 0 <= i < j < |hours| ==> hours[i] < hours[j]
  }

  ghost predicate ReadOnce(fetched: seq<Read>) {
    forall i, j :: 0 <= i < j < |fetched| ==> fetched[i] != fetched[j]
  }

  // Everything read or added lies in an hour below `hour`.
  ghost predicate AllBelow(hour: int, fetched: seq<Read>, added: seq<int>) {
    (forall r <- fetched :: r.hour < hour) && (forall a <- added :: a < hour)
  }

  // While a directory is open, what has been read from it is marked as processed.
  ghost predicate AllMarked(hour: int, fetched: seq<Read>, added: seq<int>, processed: set<string>) {
    && (forall r <- fetched :: r.hour < hour || (r.hour == hour && r.file in processed))
    && (forall a <- added :: a <= hour)
  }

  lemma {:induction false} Opening(hour: int, fetched: seq<Read>, added: seq<int>, processed: set<string>)
    requires AllBelow(hour, fetched, added) && Increasing(added)
    ensures AllMarked(hour, fetched, added + [hour], processed) && Increasing(added + [hour])
  {
    assert forall i :: 0 <= i < |added| ==> added[i] in added;
  }

  lemma {:induction false} Marking(hour: int, fetched: seq<Read>, added: seq<int>, processed: set<string>, file: string)
    requires AllMarked(hour, fetched, added, processed) && ReadOnce(fetched) && file !in processed
    ensures AllMarked(hour, fetched + [Read(hour, file)], added, processed + {file})
    ensures ReadOnce(fetched + [Read(hour, file)])
  {
  }

  lemma {:induction false} OldHour(hour: int, now: nat)
    requires hour <= HourOf(now) && Age(now, hour * 3600) > 60 * 60
    ensures hour < HourOf(now)
  {
    HourMonotone(now, now);
    assert now - hour * 3600 >= Age(now, hour * 3600);
  }

  // The invariant, at a reading of the clock: not ahead of it, everything read and added once.
  ghost predicate Kept(s: Place, clock: nat) {
    && s.hour <= HourOf(clock)
    && Increasing(s.added) && ReadOnce(s.fetched)
    && s.pending !! s.done
    && if s.open then AllMarked(s.hour, s.fetched, s.added, if s.accessing then s.done else {})
       else AllBelow(s.hour, s.fetched, s.added)
  }

  // Between the two halves of a pass: the directory is closed, and either already left or in the past.
  ghost predicate Closed(s: Place, clock: nat) {
    && !s.open
    && s.hour <= HourOf(clock)
    && Increasing(s.added) && ReadOnce(s.fetched)
    && s.pending !! s.done
    && AllBelow(if s.hour < HourOf(clock) then s.hour + 1 else s.hour, s.fetched, s.added)
  }

  lemma {:induction false} ListedKept(s: Place, listing: seq<string>, clock: nat)
    requires Kept(s, clock) && s.open
    ensures Kept(Listed(s, listing), clock) && Listed(s, listing).accessing && Listed(s, listing).open
  {
    hide Increasing, ReadOnce, AllMarked, AllBelow, HourOf;
  }

  lemma {:induction false} ReadKept(s: Place, p: Pass, clock: nat)
    requires Kept(s, clock) && s.open && s.accessing
    ensures Kept(ReadIfReady(s, p), clock) && ReadIfReady(s, p).open && ReadIfReady(s, p).accessing
  {
    if s.pending != {} {
      Marking(s.hour, s.fetched, s.added, s.done, Least(s.pending));
    }
    hide Increasing, ReadOnce, AllMarked, AllBelow, HourOf;
  }

  lemma {:induction false} LeftKept(s: Place, now: nat, clock: nat)
    requires Kept(s, clock) && s.open && s.accessing && clock <= now
    ensures var t := LeftIfOld(s, now); if t.open then Kept(t, now) else Closed(t, now)
  {
    HourMonotone(clock, now);
    if Age(now, s.hour * 3600) > 60 * 60 {
      OldHour(s.hour, now);
    }
    hide Increasing, ReadOnce, HourOf, Age;
  }

  lemma {:induction false} ReleasedKept(s: Place, now: nat, clock: nat)
    requires Closed(s, clock) && clock <= now
    ensures Kept(Released(s, now), now) && !Released(s, now).open
  {
    HourMonotone(clock, now);
    hide Increasing, ReadOnce, HourOf;
  }

  lemma {:induction false} OpenedKept(s: Place, probe: Probe, clock: nat)
    requires Kept(s, clock) && !s.open
    ensures Kept(OpenedIf(s, probe), clock)
  {
    Opening(s.hour, s.fetched, s.added, if s.accessing then s.done else {});
    hide Increasing, ReadOnce, AllMarked, AllBelow, HourOf;
  }

  lemma {:induction false} OneFileKept(s: Place, p: Pass, clock: nat)
    requires Kept(s, clock) && s.open && clock <= p.now
    ensures var t := OneFile(s, p); if t.open then Kept(t, p.now) else Closed(t, p.now)
  {
    hide Kept, Closed, Listed, ReadIfReady, LeftIfOld;
    ListedKept(s, p.listing, clock);
    ReadKept(Listed(s, p.listing), p, clock);
    LeftKept(ReadIfReady(Listed(s, p.listing), p), p.now, clock);
  }

  lemma {:induction false} KeptLater(s: Place, clock: nat, later: nat)
    requires Kept(s, clock) && clock <= later
    ensures Kept(s, later)
    ensures !s.open ==> Closed(s, clock)
  {
    HourMonotone(clock, later);
    hide Increasing, ReadOnce, HourOf;
  }

  lemma {:induction false} NextKept(s: Place, p: Pass, clock: nat)
    requires Kept(s, clock) && clock <= p.now <= p.later
    ensures Kept(Next(s, p), p.later)
  {
    hide Kept, Closed, OneFile, Released, OpenedIf;
    KeptLater(s, clock, p.now);
    var a, since := if s.open then OneFile(s, p) else s, if s.open then p.now else clock;
    if s.open {
      OneFileKept(s, p, clock);
    }
    if a.open {
      KeptLater(a, p.now, p.later);
    } else {
      ReleasedKept(a, p.later, since);
      OpenedKept(Released(a, p.later), p.probe, p.later);
    }
  }

  lemma {:induction false} AfterKept(s: Place, passes: seq<Pass>, clock: nat)
    requires Kept(s, clock) && PassesClocked(clock, passes)
    ensures Kept(After(s, passes), LastClock(clock, passes))
    decreases |passes|
  {
    hide Kept, Next;
    if passes != [] {
      NextKept(s, passes[0], clock);
      AfterKept(Next(s, passes[0]), passes[1..], passes[0].later);
    }
  }

  // ---- When everything is read once ----

  // Nothing has been read and nothing is listed.
  predicate Fresh(s: Place) {
    && s.fetched == [] && s.pending == {} && (s.open ==> s.state == Current)
    && (s.added == [] || (s.open && s.added == [s.hour]))
  }

  // Two passes around the moment the clock reaches the hour of the directory.
  function AroundTheHour(hour: int, file: string): seq<Pass>
    requires hour > 0
  {
    var start := hour * 3600;
    [Pass([file], 0, true, Present, start - 1, start), Pass([file], 0, true, Present, start, start)]
  }

  lemma {:induction false} OnlyFile(file: string)
    ensures Least({file}) == file
  {
  }

  lemma {:induction false} ListedAlone(s: Place, file: string)
    requires s.pending == {} && file !in s.done
    ensures var t := Listed(s, [file]);
            t == s.(accessing := true, pending := {file}, done := if s.accessing then s.done else {})
  {
    var a := if s.accessing then s else s.(accessing := true, pending := {}, done := {});
    assert (set f <- [file] | f !in a.done) == {file};
  }

  // Listing one new file reads it.
  lemma {:induction false} OneFileRead(s: Place, file: string, p: Pass)
    requires s.pending == {} && file !in s.done && p.listing == [file] && p.outstanding == 0 && p.complete
    ensures var t := OneFile(s, p);
            && t.fetched == s.fetched + [Read(s.hour, file)] && t.pending == {} && t.hour == s.hour
            && t.state == s.state && t.added == s.added
            && (if Age(p.now, s.hour * 3600) > 60 * 60 then !t.open && !t.accessing else t.open == s.open)
  {
    ListedAlone(s, file);
    OnlyFile(file);
    hide Age, Listed;
    assert {file} - {file} == {};
  }

  // A directory ahead of the clock is left at once, as its unsigned age wraps around. When the clock reaches its hour
  // it counts as present, is not moved on, and is opened and read again.
  lemma {:induction false} ReadTwice(s: Place, clock: nat, file: string)
    requires Fresh(s) && s.open && s.hour > HourOf(clock) && file !in s.done
    ensures PassesClocked(clock, AroundTheHour(s.hour, file))
    ensures After(s, AroundTheHour(s.hour, file)).fetched == [Read(s.hour, file), Read(s.hour, file)]
    ensures After(s, AroundTheHour(s.hour, file)).added == s.added + [s.hour]
  {
    var passes := AroundTheHour(s.hour, file);
    var start := s.hour * 3600;
    assert clock <= start - 1 && HourOf(start) == s.hour;
    assert Age(start - 1, start) > 60 * 60;
    InTurn(s, passes[0], passes[1], clock);
    hide Age, HourOf, OneFile, After, PassesClocked;
    OneFileRead(s, file, passes[0]);
    var t := Next(s, passes[0]);
    assert t.open && !t.accessing && t.hour == s.hour && t.fetched == [Read(s.hour, file)];
    hide Next;
    SecondReading(t, passes[1], file);
  }

  lemma {:induction false} InTurn(s: Place, a: Pass, b: Pass, clock: nat)
    ensures After(s, [a, b]) == Next(Next(s, a), b)
    ensures clock <= a.now <= a.later <= b.now <= b.later ==> PassesClocked(clock, [a, b])
  {
    hide Next;
    var two, one := [a, b], [b];
    assert two[1..] == one && one[1..] == [];
    assert After(s, two) == After(Next(s, a), one) == Next(Next(s, a), b);
    assert b.later >= 0 && PassesClocked(b.later, []);
    assert a.later <= b.now <= b.later ==> PassesClocked(a.later, one);
  }

  lemma {:induction false} SecondReading(t: Place, p: Pass, file: string)
    requires t.hour > 0 && t.open && !t.accessing && p == Pass([file], 0, true, Present, t.hour * 3600, t.hour * 3600)
    ensures Next(t, p).fetched == t.fetched + [Read(t.hour, file)] && Next(t, p).added == t.added
  {
    var cleared := t.(accessing := true, pending := {}, done := {});
    assert Listed(t, p.listing) == Listed(cleared, p.listing);
    OneFileRead(cleared, file, p);
    hide Listed;
  }

  lemma {:induction false} NewName(names: set<string>)
    ensures exists f: string :: f !in names
  {
    var f := LongerThanAll(names);
    assert f !in names;
  }

  lemma {:induction false} LongerThanAll(names: set<string>) returns (f: string)
    ensures forall g <- names :: |g| < |f|
    decreases names
  {
    if names == {} {
      f := "a";
    } else {
      var g :| g in names;
      var h := LongerThanAll(names - {g});
      f := h + g + "a";
    }
  }

  // A place ahead of the clock that is not open: a present directory is opened, ahead of the clock as well.
  lemma {:induction false} OpenedAhead(s: Place, clock: nat)
    requires Fresh(s) && !s.open && s.hour > HourOf(clock)
    ensures var t := Next(s, Pass([], 0, false, Present, clock, clock));
            Fresh(t) && t.open && t.hour > HourOf(clock) && t.done == s.done
  {
    hide HourOf;
  }

  // Whatever the server answers from now on, no file is read twice: exactly when the directory is not ahead of the
  // clock.
  ghost predicate AlwaysReadOnce(s: Place, clock: nat) {
    forall passes: seq<Pass> :: PassesClocked(clock, passes) ==> ReadOnce(After(s, passes).fetched)
  }

  lemma {:induction false} ReadTwiceFromAnywhere(s: Place, clock: nat) returns (passes: seq<Pass>)
    requires Fresh(s) && s.hour > HourOf(clock)
    ensures PassesClocked(clock, passes) && !ReadOnce(After(s, passes).fetched)
  {
    NewName(s.done);
    var file: string :| file !in s.done;
    hide Next, HourOf, AroundTheHour;
    if s.open {
      passes := AroundTheHour(s.hour, file);
      ReadTwice(s, clock, file);
      assert After(s, passes).fetched[0] == After(s, passes).fetched[1];
    } else {
      var p := Pass([], 0, false, Present, clock, clock);
      var t := Next(s, p);
      OpenedAhead(s, clock);
      var more := AroundTheHour(t.hour, file);
      ReadTwice(t, clock, file);
      passes := [p] + more;
      assert passes[1..] == more && passes[0] == p;
      assert After(s, passes).fetched[0] == After(s, passes).fetched[1];
    }
  }

  lemma {:induction false} ReadsOnceIff(s: Place, clock: nat)
    requires Fresh(s)
    ensures AlwaysReadOnce(s, clock) <==> s.hour <= HourOf(clock)
  {
    if s.hour <= HourOf(clock) {
      assert Kept(s, clock);
      forall passes: seq<Pass> | PassesClocked(clock, passes)
        ensures ReadOnce(After(s, passes).fetched)
      {
        AfterKept(s, passes, clock);
      }
    } else {
      var passes := ReadTwiceFromAnywhere(s, clock);
      hide After, PassesClocked, ReadOnce;
    }
  }
}
