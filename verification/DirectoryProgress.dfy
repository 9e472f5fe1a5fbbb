/** That the thread gets on: what is listed is read, in order, and a directory that is done is left for the next. */
module DirectoryProgress {
  import opened DataDirectory
  import opened DirectoryPasses
  import opened DirectorySearch
  import opened Particulars
  import opened StringOrder

  // The files that are still to be read once the pass has looked at the server.
  function Remaining(s: Place, p: Pass): set<string> {
    if !s.accessing then set f <- p.listing
    else if s.pending != {} then s.pending
    else set f <- p.listing | f !in s.done
  }

  // A file can be read: it is complete, and not too many buffers are in memory.
  predicate Ready(p: Pass) {
    p.outstanding <= 5 && p.complete
  }

  // The pass is at least an hour after the start of the directory, and before the unsigned age wraps around.
  predicate Old(hour: int, p: Pass) {
    3600 < p.now - hour * 3600 < 0x1_0000_0000 && p.now <= p.later
  }

  predicate Young(hour: int, p: Pass) {
    0 <= p.now - hour * 3600 <= 3600
  }

  lemma {:induction false} RemainingAreListed(s: Place, p: Pass)
    ensures var t := Listed(s, p.listing);
            && t.pending == Remaining(s, p) && t.accessing
            && t == s.(accessing := true, pending := t.pending, done := if s.accessing then s.done else {})
  {
    assert !s.accessing ==> (set f <- p.listing | f !in {}) == (set f <- p.listing);
  }

  // The first of the files that are left is read, if one can be; nothing else is.
  lemma {:induction false} FirstIsRead(s: Place, p: Pass)
    requires s.open
    ensures var fetched := Next(s, p).fetched;
            if Remaining(s, p) != {} && Ready(p) then
              exists f :: IsLeast(f, Remaining(s, p)) && fetched == s.fetched + [Read(s.hour, f)]
            else fetched == s.fetched
  {
    RemainingAreListed(s, p);
    hide Listed, Age, HourOf, IsLeast;
  }

  // Nothing is left when the pass is over.
  predicate Exhausted(s: Place, p: Pass) {
    Remaining(s, p) == {} || (|Remaining(s, p)| == 1 && Ready(p))
  }

  lemma {:induction false} ExhaustedIff(s: Place, p: Pass)
    ensures ReadIfReady(Listed(s, p.listing), p).pending == {} <==> Exhausted(s, p)
  {
    RemainingAreListed(s, p);
    var r := Remaining(s, p);
    hide Listed, Remaining;
    if r != {} {
      var f := Least(r);
      assert r == {f} + (r - {f});
      assert |r| == 1 + |r - {f}|;
    }
  }

  lemma {:induction false} AgeOfOld(hour: int, now: nat)
    ensures 3600 < now - hour * 3600 < 0x1_0000_0000 ==> Age(now, hour * 3600) > 60 * 60
    ensures 0 <= now - hour * 3600 <= 3600 ==> Age(now, hour * 3600) <= 60 * 60
  {
  }

  // When an open directory is left: if it is old and nothing is left in it. Then the next hour is proposed, and opened
  // if it is there; otherwise the place stays.
  lemma {:induction false} LeavesIff(s: Place, p: Pass)
    requires s.open && s.state == Current && (Old(s.hour, p) || Young(s.hour, p))
    ensures var t := Next(s, p);
            if Old(s.hour, p) && Exhausted(s, p) then
              && t.hour == s.hour + 1 && !t.accessing
              && (t.open <==> p.probe == Present) && (t.state == if t.open then Current else Proposed)
              && t.added == s.added + (if t.open then [t.hour] else [])
            else t.hour == s.hour && t.open && t.state == Current && t.accessing && t.added == s.added
  {
    ExhaustedIff(s, p);
    RemainingAreListed(s, p);
    AgeOfOld(s.hour, p.now);
    if Old(s.hour, p) {
      HourMonotone(p.now, p.later);
      assert HourOf(p.now) > s.hour;
    }
    hide Listed, Age, HourOf, Exhausted, Remaining;
  }

  // Without an open directory the thread waits in the hour of the clock, and otherwise moves on by one, whether or not
  // the directory it leaves behind was there; the one it comes to is opened if it is there.
  lemma {:induction false} WaitsOrMoves(s: Place, p: Pass)
    requires !s.open
    ensures var t := Next(s, p);
            && t.hour == (if s.hour * 3600 <= p.later < s.hour * 3600 + 3600 then s.hour else s.hour + 1)
            && (t.open <==> p.probe == Present) && (t.open ==> t.state == Current)
            && t.added == s.added + (if t.open then [t.hour] else [])
            && t.fetched == s.fetched && t.pending == s.pending && t.done == s.done
  {
  }

  // ---- A whole directory ----

  // The passes over the directory of one hour: a file can be read in every pass, the directory is old, and the list is
  // one; in the last pass the next directory is there.
  ghost predicate Working(passes: seq<Pass>, hour: int, files: set<string>) {
    && |passes| == (if files == {} then 1 else |files|)
    && Usable(passes, hour) && forall p <- passes :: files == set f <- p.listing
  }

  // Reading every one of `files`, in order.
  function ReadsOf(hour: int, files: seq<string>): seq<Read> {
    if files == [] then [] else [Read(hour, files[0])] + ReadsOf(hour, files[1..])
  }

  // The place, with the directory of the next hour open, all of `files` read.
  function NextPlace(s: Place, files: seq<string>, done: set<string>): Place {
    Place(s.hour + 1, Current, true, false, {}, done, s.fetched + ReadsOf(s.hour, files), s.added + [s.hour + 1])
  }

  lemma {:induction false} LastPass(s: Place, p: Pass)
    requires s.open && s.state == Current && Old(s.hour, p) && Ready(p) && p.probe == Present && Exhausted(s, p)
    ensures Next(s, p) == NextPlace(s, Sorted(Remaining(s, p)), DoneBefore(s) + Remaining(s, p))
  {
    LeavesIff(s, p);
    ExhaustedIff(s, p);
    RemainingAreListed(s, p);
    AgeOfOld(s.hour, p.now);
    HourMonotone(p.now, p.later);
    assert HourOf(p.now) > s.hour;
    var r := Remaining(s, p);
    if r != {} {
      OneLeft(s.hour, r);
      assert ReadIfReady(Listed(s, p.listing), p).done == (if s.accessing then s.done else {}) + {Least(r)};
    } else {
      NoneLeft(s.hour);
      assert s.fetched + [] == s.fetched;
    }
    hide Listed, Age, HourOf, Exhausted, Remaining, ReadsOf, Sorted;
  }

  lemma {:induction false} OneLeft(hour: int, r: set<string>)
    requires |r| == 1
    ensures r == {Least(r)} && ReadsOf(hour, Sorted(r)) == [Read(hour, Least(r))]
  {
    var f := Least(r);
    assert r == {f} + (r - {f}) && |r| == 1 + |r - {f}|;
    assert Sorted(r) == [f] + Sorted({});
    assert Sorted(r)[1..] == [];
  }

  lemma {:induction false} NoneLeft(hour: int)
    ensures ReadsOf(hour, Sorted({})) == []
  {
  }

  // A pass that leaves more to read.
  lemma {:induction false} OnePass(s: Place, p: Pass)
    requires s.open && s.state == Current && Old(s.hour, p) && Ready(p) && |Remaining(s, p)| > 1
    ensures var r := Remaining(s, p); var f := Least(r);
            && Next(s, p) == s.(accessing := true, pending := r - {f},
                                done := (if s.accessing then s.done else {}) + {f},
                                fetched := s.fetched + [Read(s.hour, f)])
            && |r - {f}| == |r| - 1
  {
    LeavesIff(s, p);
    RemainingAreListed(s, p);
    var r := Remaining(s, p);
    var f := Least(r);
    assert r == {f} + (r - {f}) && |r| == 1 + |r - {f}|;
    hide Listed, Age, HourOf, Remaining;
  }

  // The reads of a set, least first.
  lemma {:induction false} ReadsInOrder(hour: int, r: set<string>)
    requires r != {}
    ensures ReadsOf(hour, Sorted(r)) == [Read(hour, Least(r))] + ReadsOf(hour, Sorted(r - {Least(r)}))
  {
    var f := Least(r);
    assert Sorted(r) == [f] + Sorted(r - {f});
    assert Sorted(r)[1..] == Sorted(r - {f});
  }

  function DoneBefore(s: Place): set<string> {
    if s.accessing then s.done else {}
  }

  // The place after the first of several files is read.
  function OneRead(s: Place, r: set<string>): Place
    requires r != {}
  {
    var f := Least(r);
    s.(accessing := true, pending := r - {f}, done := DoneBefore(s) + {f}, fetched := s.fetched + [Read(s.hour, f)])
  }

  lemma {:induction false} SameNextPlace(s: Place, r: set<string>)
    requires r != {}
    ensures var t := OneRead(s, r); var rest := r - {Least(r)};
            NextPlace(t, Sorted(rest), DoneBefore(t) + rest) == NextPlace(s, Sorted(r), DoneBefore(s) + r)
  {
    var f := Least(r);
    ReadsInOrder(s.hour, r);
    hide Sorted, ReadsOf;
    PutBack(DoneBefore(s), f, r);
    Joined(s.fetched, Read(s.hour, f), ReadsOf(s.hour, Sorted(r - {f})));
  }

  lemma {:induction false} PutBack(a: set<string>, f: string, r: set<string>)
    requires f in r
    ensures a + {f} + (r - {f}) == a + r
  {
  }

  lemma {:induction false} Joined(a: seq<Read>, x: Read, b: seq<Read>)
    ensures a + [x] + b == a + ([x] + b)
  {
  }

  lemma {:induction false} OneThenTheRest(s: Place, p: Pass, next: Pass)
    requires s.open && s.state == Current && Old(s.hour, p) && Ready(p) && |Remaining(s, p)| > 1
    ensures var r := Remaining(s, p);
            && r != {} && Next(s, p) == OneRead(s, r)
            && Remaining(Next(s, p), next) == r - {Least(r)} && |r - {Least(r)}| == |r| - 1
            && Next(s, p).open && Next(s, p).state == Current && Next(s, p).hour == s.hour
  {
    var r := Remaining(s, p);
    OnePass(s, p);
    hide Next, Ready, Old;
    assert r - {Least(r)} != {};
  }

  lemma {:induction false} AfterFirst(s: Place, passes: seq<Pass>)
    requires passes != []
    ensures After(s, passes) == After(Next(s, passes[0]), passes[1..])
    ensures |passes| == 1 ==> After(s, passes) == Next(s, passes[0])
  {
    hide Next;
    if |passes| == 1 {
      assert passes[1..] == [];
    }
  }

  // In every one of the passes a file can be read and the directory is old, and in the last the next one is there.
  ghost predicate Usable(passes: seq<Pass>, hour: int) {
    passes != [] && (forall p <- passes :: Ready(p) && Old(hour, p)) && passes[|passes| - 1].probe == Present
  }

  lemma {:induction false} UsableParts(passes: seq<Pass>, hour: int)
    requires Usable(passes, hour)
    ensures Ready(passes[0]) && Old(hour, passes[0])
    ensures if |passes| == 1 then passes[0].probe == Present else Usable(passes[1..], hour)
  {
    hide Ready, Old;
  }

  lemma {:induction false} Drained(s: Place, passes: seq<Pass>)
    requires s.open && s.state == Current && Usable(passes, s.hour)
    requires var r := Remaining(s, passes[0]); |passes| == if r == {} then 1 else |r|
    ensures var r := Remaining(s, passes[0]); After(s, passes) == NextPlace(s, Sorted(r), DoneBefore(s) + r)
    decreases |passes|
  {
    var p, more := passes[0], passes[1..];
    UsableParts(passes, s.hour);
    AfterFirst(s, passes);
    hide Next, After, Ready, Old, Sorted, NextPlace, Remaining, DoneBefore, OneRead, Usable;
    if |passes| == 1 {
      assert Exhausted(s, p);
      LastPass(s, p);
    } else {
      hide Exhausted;
      OneThenTheRest(s, p, more[0]);
      SameNextPlace(s, Remaining(s, p));
      Drained(Next(s, p), more);
    }
  }

  // A directory just opened: as many passes as it lists files read them all, in the order of their names, and open the
  // next directory.
  lemma {:induction false} DirectoryIsRead(s: Place, passes: seq<Pass>, files: set<string>)
    requires s.open && s.state == Current && !s.accessing && Working(passes, s.hour, files)
    ensures After(s, passes) == NextPlace(s, Sorted(files), files)
  {
    assert Remaining(s, passes[0]) == files;
    assert {} + files == files;
    hide Remaining, Ready, Old, Sorted, After;
    Drained(s, passes);
  }

  // ---- One directory after the other ----

  // What is there to do: for every hour from `hour` on, the passes over its directory, and the files it lists.
  datatype Hour = Hour(passes: seq<Pass>, files: set<string>)

  ghost predicate AllWorking(hours: seq<Hour>, hour: int) {
    forall i :: 0 <= i < |hours| ==> Working(hours[i].passes, hour + i, hours[i].files)
  }

  function AllPasses(hours: seq<Hour>): seq<Pass> {
    if hours == [] then [] else hours[0].passes + AllPasses(hours[1..])
  }

  function AllReads(hours: seq<Hour>, hour: int): seq<Read> {
    if hours == [] then [] else ReadsOf(hour, Sorted(hours[0].files)) + AllReads(hours[1..], hour + 1)
  }

  lemma {:induction false} AfterBoth(s: Place, a: seq<Pass>, b: seq<Pass>)
    ensures After(s, a + b) == After(After(s, a), b)
    decreases |a|
  {
    hide Next;
    if a == [] {
      assert a + b == b;
    } else {
      assert (a + b)[0] == a[0] && (a + b)[1..] == a[1..] + b;
      AfterBoth(Next(s, a[0]), a[1..], b);
    }
  }

  // The thread catches up: it reads everything that is listed, hour after hour and name after name, and nothing else,
  // and has the directory of the hour after the last one open.
  lemma {:induction false} CatchesUp(s: Place, hours: seq<Hour>)
    requires s.open && s.state == Current && !s.accessing && AllWorking(hours, s.hour)
    ensures var t := After(s, AllPasses(hours));
            && t.hour == s.hour + |hours| && t.open && t.state == Current && !t.accessing
            && t.fetched == s.fetched + AllReads(hours, s.hour)
    decreases |hours|
  {
    hide After, Working, Sorted, ReadsOf;
    if hours == [] {
      AfterNothing(s);
      assert s.fetched + [] == s.fetched;
    } else {
      var h, more := hours[0], hours[1..];
      assert Working(h.passes, s.hour + 0, h.files);
      DirectoryIsRead(s, h.passes, h.files);
      var t := After(s, h.passes);
      assert forall i :: 0 <= i < |more| ==> more[i] == hours[i + 1] && t.hour + i == s.hour + (i + 1);
      CatchesUp(t, more);
      AfterBoth(s, h.passes, AllPasses(more));
      assert s.fetched + ReadsOf(s.hour, Sorted(h.files)) + AllReads(more, s.hour + 1)
          == s.fetched + AllReads(hours, s.hour);
    }
  }

  lemma {:induction false} AfterNothing(s: Place)
    ensures After(s, []) == s
  {
  }
}
