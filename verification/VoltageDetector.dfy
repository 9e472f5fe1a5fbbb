/** The windowed detector: it sees the samples one window at a time, keeps counters, flags and a log of events
    across windows, retracts an event that turns out to go on, and reports the trailing one a window late. */
module VoltageDetector {
  import opened VoltageEvents

  // ---- What one phase holds, as a value ----

  /** Row `aa` of the arrays of the analysis object. Position 0, 1, 2 of `count` (V_r1..V_r3), `saved`
      (tmp_V_r1..tmp_V_r3) and `flag` (last_sample_V) stands for sag, interruption, swell; `log` is ts, te, an. */
  datatype View = View(count: seq<nat>, saved: seq<nat>, flag: seq<nat>, log: seq<Event>, report: nat)

  function Index(c: Class): nat
    requires c != Normal
  {
    match c
    case Sag => 0
    case Interruption => 1
    case Swell => 2
  }

  predicate Shape(v: View) {
    |v.count| == |v.saved| == |v.flag| == 3 && v.report <= |v.log|
  }

  ghost predicate Flagged(v: View, t: Trail) {
    && Shape(v)
    && forall i :: 0 <= i < 3 ==>
         && v.flag[i] == (if t.cls != Normal && i == Index(t.cls) then 1 else 0)
         && (v.flag[i] == 1 ==> v.saved[i] == t.count)
  }

  ghost predicate Counting(v: View, c: Class, n: nat) {
    |v.count| == 3 && forall i :: 0 <= i < 3 ==> v.count[i] == if c != Normal && i == Index(c) then n else 0
  }

  // The entry `offset` places before the end of the log is the pending event.
  ghost predicate EndsWith(v: View, pending: seq<Event>, offset: nat) {
    pending != [] ==> offset < |v.log| && v.log[|v.log| - offset - 1] == pending[0]
  }

  // An entry spans its samples and the one before; an entry past the cap has counted one sample too many.
  predicate WellSpaced(e: Event) {
    var width := e.end - e.start;
    match e.description
    case VoltageSag => MAX_WDW_SAG + 1 < width <= OVER + 1
    case BriefInterruption => 1 < width <= OVER + 1
    case VoltageSwell => 1 < width <= OVER + 1
    case _ => width == OVER + 2
  }

  ghost predicate SafeLog(log: seq<Event>, now: int) {
    && (forall e <- log :: WellSpaced(e) && e.end <= now)
    && (forall i, j :: 0 <= i < j < |log| ==> log[i].end <= log[j].end)
  }

  // Between windows: `hist` is every sample so far.
  ghost predicate Between(v: View, hist: seq<real>) {
    var t := OnePass(hist);
    && Flagged(v, t) && Counting(v, t.cls, t.count)
    && SafeLog(v.log, |hist|)
    && EndsWith(v, t.Pending(|hist|), 0)
  }

  // Between windows, for the class of the last sample: its flag alone is set, its counter alone runs and is the
  // length of the trailing run modulo the cap, and the saved counter is the same; a normal sample leaves nothing.
  lemma {:induction false} CountersBetween(v: View, hist: seq<real>)
    requires Between(v, hist) && hist != []
    ensures var c := Classify(hist[|hist| - 1]);
            if c == Normal then v.flag == v.count == [0, 0, 0]
            else
              var i, n := Index(c), (TrailingRun(hist) - 1) % OVER + 1;
              v.flag == [0, 0, 0][i := 1] && v.count == [0, 0, 0][i := n] && v.saved[i] == n
  {
    var t := OnePass(hist);
    hide OnePass, SafeLog, TrailingRun;
    if t.cls != Normal {
      CounterMeaning(hist);
    }
  }

  // The pending event of the previous window, when window `w` does not go on with it.
  function Carried(hist: seq<real>, w: seq<real>): (r: seq<Event>)
    requires w != []
    ensures |r| <= 1
  {
    if Classify(w[0]) != OnePass(hist).cls then OnePass(hist).Pending(|hist|) else []
  }

  // Everything that is final or logged by the current window.
  ghost function Found(v: View, hist: seq<real>, w: seq<real>): seq<Event>
    requires w != [] && Shape(v)
  {
    OnePass(hist).settled + Carried(hist, w) + New(v)
  }

  // Inside a piece of class `c` of which `n` samples are read; `before` is settled once its first one is read.
  ghost predicate InPiece(seen: seq<real>, before: seq<Event>, c: Class, n: nat) {
    if n == 0 then Advance(OnePass(seen), |seen|, c) == Trail(before, c, 1)
    else OnePass(seen) == Trail(before, c, n)
  }

  // The next run begins with a sample of class `c`. A counter that is not zero goes on with the run of the
  // previous window.
  ghost predicate AtRun(v: View, hist: seq<real>, seen: seq<real>, w: seq<real>, c: Class)
    requires w != []
  {
    var t := OnePass(hist);
    && Flagged(v, t)
    && if c == Normal then
         Counting(v, c, 0) && Advance(OnePass(seen), |seen|, c) == Trail(Found(v, hist, w), c, 0)
       else
         var n := v.count[Index(c)];
         && Counting(v, c, n) && n <= OVER
         && InPiece(seen, Found(v, hist, w), c, n)
         && (n > 0 ==> seen == hist && v.report == 0 && c == t.cls && Carried(hist, w) == [] &&
                       EndsWith(v, t.Pending(|hist|), 0))
  }

  // The window is read to its end; flags of a run that ended earlier are still to be cleared.
  ghost predicate AtEnd(v: View, hist: seq<real>, seen: seq<real>, w: seq<real>)
    requires w != []
  {
    var t := OnePass(seen);
    && Shape(v)
    && Counting(v, t.cls, t.count)
    && (t.cls != Normal ==> Flagged(v, t))
    && t.settled + t.Pending(|seen|) == Found(v, hist, w)
    && (t.Pending(|seen|) != [] ==> v.report > 0)
  }

  // The samples read so far are the history and the first `jj` samples of the window.
  ghost predicate Reading(hist: seq<real>, seen: seq<real>, w: seq<real>, jj: nat) {
    && jj <= |w| && |seen| == |hist| + jj
    && (forall i :: 0 <= i < |hist| ==> seen[i] == hist[i])
    && (forall i :: 0 <= i < jj ==> seen[|hist| + i] == w[i])
  }

  ghost predicate Scanning(v: View, hist: seq<real>, seen: seq<real>, w: seq<real>, jj: nat) {
    && Shape(v) && w != [] && Reading(hist, seen, w, jj)
    && SafeLog(v.log, |seen|)
    && EndsWith(v, Carried(hist, w), v.report)
    && if jj < |w| then AtRun(v, hist, seen, w, Classify(w[jj])) else AtEnd(v, hist, seen, w)
  }

  // The window is scanned and not yet reported.
  ghost predicate Scanned(v: View, hist: seq<real>, w: seq<real>) {
    && w != [] && Shape(v)
    && Flagged(v, OnePass(hist + w)) && SafeLog(v.log, |hist + w|)
    && EndsWith(v, Carried(hist, w), v.report)
    && AtEnd(v, hist, hist + w, w)
  }

  // ---- What the steps of the scan do to it ----

  function Push(v: View, e: Event): View {
    v.(log := v.log + [e], report := v.report + 1)
  }

  function Pop(v: View): View
    requires v.log != []
  {
    v.(log := v.log[..|v.log| - 1])
  }

  // Whether the run that ends before `jj` is the one the previous window ended with, already logged.
  predicate Continues(v: View, jj: int, c: Class)
    requires Shape(v) && c != Normal
  {
    var i := Index(c);
    jj - v.count[i] + v.saved[i] == 0 && v.flag[i] == 1 && (c == Sag ==> v.saved[i] > MAX_WDW_SAG)
  }

  predicate CanRecord(v: View, jj: int, c: Class) {
    && Shape(v) && c != Normal && v.count[Index(c)] <= OVER + 1
    && (v.count[Index(c)] <= OVER && Continues(v, jj, c) ==> v.log != [] && v.report == 0)
  }

  // Logs the run counted so far, in place of the entry of the previous window when it continues that one.
  function Record(v: View, base: int, jj: int, c: Class): View
    requires CanRecord(v, jj, c)
  {
    var n := v.count[Index(c)];
    if n > OVER then Push(v, Event(base + jj - n - 1, base + jj, CapLabel(c)))
    else if c != Sag || n > MAX_WDW_SAG then
      Push(if Continues(v, jj, c) then Pop(v) else v, Event(base + jj - n - 1, base + jj, Label(c)))
    else v
  }

  // One entry comes to the end of the log: in place of the last one if the run continues it and has not reached the
  // cap, behind it otherwise. A sag of three samples or fewer leaves the log as it is.
  lemma {:induction false} RecordReplaces(v: View, base: int, jj: int, c: Class)
    requires CanRecord(v, jj, c)
    ensures var r := Record(v, base, jj, c);
            var n, size := v.count[Index(c)], |v.log|;
            if c == Sag && n <= 3 then r == v
            else if n <= 7200 && Continues(v, jj, c) then |r.log| == size && r.log[..size - 1] == v.log[..size - 1]
            else |r.log| == size + 1 && r.log[..size] == v.log
  {
  }

  // Flags the last sample of the window when the run reaches it, and drops the counter otherwise.
  function Leave(v: View, len: nat, jj: nat, c: Class): View
    requires Shape(v) && c != Normal
  {
    var i := Index(c);
    if jj == len && 0 < v.count[i] <= OVER then
      v.(flag := [0, 0, 0][i := 1], saved := v.saved[i := v.count[i]])
    else v.(count := v.count[i := 0])
  }

  lemma {:induction false} ReadOne(hist: seq<real>, seen: seq<real>, w: seq<real>, jj: nat)
    requires Reading(hist, seen, w, jj) && jj < |w|
    ensures Reading(hist, seen + [w[jj]], w, jj + 1)
    ensures OnePass(seen + [w[jj]]) == Advance(OnePass(seen), |seen|, Classify(w[jj]))
  {
    OnePassSnoc(seen, w[jj]);
  }

  lemma {:induction false} ReadPiece(hist: seq<real>, seen: seq<real>, w: seq<real>, jj: nat, before: seq<Event>,
                                     c: Class, n: nat)
    requires Reading(hist, seen, w, jj) && jj < |w| && Classify(w[jj]) == c != Normal
    requires InPiece(seen, before, c, n) && n < OVER
    ensures Reading(hist, seen + [w[jj]], w, jj + 1) && InPiece(seen + [w[jj]], before, c, n + 1)
  {
    ReadOne(hist, seen, w, jj);
  }

  ghost function New(v: View): seq<Event>
    requires Shape(v)
  {
    v.log[|v.log| - v.report..]
  }

  // `r` is `v` with `entry` logged; the log stays safe and the entry carried over stays where it is.
  ghost predicate Logged(r: View, v: View, entry: seq<Event>, end: int, carried: seq<Event>)
    requires Shape(v)
  {
    && Shape(r) && r == v.(log := r.log, report := v.report + |entry|)
    && SafeLog(r.log, end) && New(r) == New(v) + entry
    && EndsWith(r, carried, r.report)
  }

  lemma {:induction false} PushLogs(v: View, now: int, e: Event, carried: seq<Event>)
    requires Shape(v) && SafeLog(v.log, now) && WellSpaced(e) && now <= e.end && EndsWith(v, carried, v.report)
    ensures Logged(Push(v, e), v, [e], e.end, carried)
  {
  }

  lemma {:induction false} PopPushLogs(v: View, now: int, e: Event)
    requires Shape(v) && SafeLog(v.log, now) && WellSpaced(e) && now <= e.end && v.log != [] && v.report == 0
    ensures Logged(Push(Pop(v), e), v, [e], e.end, [])
  {
    assert SafeLog(Pop(v).log, now);
  }

  lemma {:induction false} NothingLogged(v: View, now: int, end: int, carried: seq<Event>)
    requires Shape(v) && SafeLog(v.log, now) && now <= end && EndsWith(v, carried, v.report)
    ensures Logged(v, v, [], end, carried)
  {
  }

  // A run of class `c` has been counted up to `n`: from `n0` at the start of the run, `v0` being the state there.
  ghost predicate Counted(v0: View, v: View, hist: seq<real>, seen0: seq<real>, seen: seq<real>, w: seq<real>,
                          jj0: nat, jj: nat, c: Class)
  {
    && c != Normal && w != [] && jj0 <= jj <= |w| && |seen0| == |hist| + jj0 && |seen| == |hist| + jj
    && AtRun(v0, hist, seen0, w, c)
    && SafeLog(v0.log, |seen0|) && EndsWith(v0, Carried(hist, w), v0.report)
    && Shape(v) && var n0, n := v0.count[Index(c)], v.count[Index(c)];
       && v == v0.(count := v0.count[Index(c) := n]) && n > 0
       && if n > OVER then
            && n == OVER + 1 && n0 + jj - jj0 == OVER && jj < |w| && Classify(w[jj]) == c
            && InPiece(seen, Found(v0, hist, w), c, OVER)
          else
            && n == n0 + jj - jj0 && jj0 < jj
            && (jj < |w| ==> Classify(w[jj]) != c) && InPiece(seen, Found(v0, hist, w), c, n)
  }

  // A run of class `c` that began in the state `v0` is counted up to position `jj`.
  ghost predicate Midway(v0: View, v: View, hist: seq<real>, seen: seq<real>, w: seq<real>, jj0: nat, jj: nat, c: Class)
  {
    && c != Normal && jj0 <= jj <= |w| && w != [] && Shape(v0) && Shape(v)
    && v == v0.(count := v0.count[Index(c) := v.count[Index(c)]])
    && v.count[Index(c)] == v0.count[Index(c)] + jj - jj0 <= OVER
    && Reading(hist, seen, w, jj) && InPiece(seen, Found(v0, hist, w), c, v.count[Index(c)])
  }

  function Bumped(v: View, c: Class): View
    requires Shape(v) && c != Normal
  {
    v.(count := v.count[Index(c) := v.count[Index(c)] + 1])
  }

  lemma {:induction false} MidwayFacts(v0: View, v: View, hist: seq<real>, seen: seq<real>, w: seq<real>, jj0: nat,
                                       jj: nat, c: Class)
    requires Midway(v0, v, hist, seen, w, jj0, jj, c)
    ensures Shape(v) && v.count[Index(c)] <= OVER && Reading(hist, seen, w, jj) && |seen| == |hist| + jj
  {
    hide InPiece, Found;
  }

  lemma {:induction false} BumpedCount(v: View, c: Class)
    requires Shape(v) && c != Normal
    ensures Bumped(v, c).count[Index(c)] == v.count[Index(c)] + 1
  {
  }

  lemma {:induction false} RunStarts(v0: View, hist: seq<real>, seen0: seq<real>, w: seq<real>, jj0: nat, c: Class)
    requires Scanning(v0, hist, seen0, w, jj0) && jj0 < |w| && Classify(w[jj0]) == c != Normal
    ensures Midway(v0, v0, hist, seen0, w, jj0, jj0, c)
  {
    hide InPiece, Reading, SafeLog, EndsWith, Found, Flagged, Carried, OnePass, Advance, Classify;
    assert v0.count[Index(c) := v0.count[Index(c)]] == v0.count;
  }

  lemma {:induction false} RunCounts(v0: View, v: View, hist: seq<real>, seen: seq<real>, w: seq<real>, jj0: nat,
                                     jj: nat, c: Class)
    requires Midway(v0, v, hist, seen, w, jj0, jj, c) && jj < |w| && Classify(w[jj]) == c
    requires v.count[Index(c)] < OVER
    ensures Midway(v0, Bumped(v, c), hist, seen + [w[jj]], w, jj0, jj + 1, c)
  {
    hide InPiece, Reading, Found, Carried, OnePass, Advance, Classify;
    ReadPiece(hist, seen, w, jj, Found(v0, hist, w), c, v.count[Index(c)]);
  }

  // The run is capped, has ended, or goes on to the end of the window.
  lemma {:induction false} RunCounted(v0: View, v: View, hist: seq<real>, seen0: seq<real>, seen: seq<real>,
                                      w: seq<real>, jj0: nat, jj: nat, c: Class)
    requires Scanning(v0, hist, seen0, w, jj0) && jj0 < |w| && Classify(w[jj0]) == c
    requires Midway(v0, v, hist, seen, w, jj0, jj, c)
    ensures jj < |w| && Classify(w[jj]) == c && v.count[Index(c)] == OVER ==>
              Counted(v0, Bumped(v, c), hist, seen0, seen, w, jj0, jj, c)
    ensures jj0 < jj && (jj < |w| ==> Classify(w[jj]) != c) ==> Counted(v0, v, hist, seen0, seen, w, jj0, jj, c)
  {
    hide InPiece, SafeLog, EndsWith, Found, Flagged, Counting, Carried, OnePass, Advance, Classify;
  }

  // An entry is retracted exactly when the run is the one the previous window ended with and has been logged.
  lemma {:induction false} ContinuesIff(v0: View, v: View, hist: seq<real>, seen0: seq<real>, seen: seq<real>,
                                        w: seq<real>, jj0: nat, jj: nat, c: Class)
    requires Counted(v0, v, hist, seen0, seen, w, jj0, jj, c) && v.count[Index(c)] <= OVER
    ensures CanRecord(v, jj, c)
    ensures Continues(v, jj, c) <==> v0.count[Index(c)] > 0 && OnePass(hist).Pending(|hist|) != []
  {
    hide OnePass, Advance, Classify;
    var i, n0 := Index(c), v0.count[Index(c)];
    if v.flag[i] == 1 {
      assert c == OnePass(hist).cls && v.saved[i] == OnePass(hist).count > 0;
    }
    if n0 > 0 {
      assert OnePass(hist).count == n0 && jj0 == 0;
    }
  }

  function Entry(c: Class, n: nat, end: int): seq<Event>
    requires c != Normal
  {
    if n > OVER then [CapEvent(c, end)] else PieceEvents(c, n, end)
  }

  // The state `v` in which a run of class `c` that ends at `end` is about to be logged; `now` is where it began.
  ghost predicate Recordable(v: View, jj: int, c: Class, now: int, end: int, carried: seq<Event>) {
    && CanRecord(v, jj, c) && 0 < v.count[Index(c)]
    && SafeLog(v.log, now) && now <= end && EndsWith(v, carried, v.report)
    && (v.count[Index(c)] <= OVER && Continues(v, jj, c) ==> carried == [])
  }

  lemma {:induction false} RecordLogs(v: View, base: int, jj: int, c: Class, now: int, carried: seq<Event>)
    requires Recordable(v, jj, c, now, base + jj, carried)
    ensures Logged(Record(v, base, jj, c), v, Entry(c, v.count[Index(c)], base + jj), base + jj, carried)
  {
    hide Logged, SafeLog, EndsWith, New;
    var n, end := v.count[Index(c)], base + jj;
    if n > OVER {
      PushLogs(v, now, CapEvent(c, end), carried);
    } else if c == Sag && n <= MAX_WDW_SAG {
      NothingLogged(v, now, end, carried);
    } else if Continues(v, jj, c) {
      PopPushLogs(v, now, Event(end - n - 1, end, Label(c)));
    } else {
      PushLogs(v, now, Event(end - n - 1, end, Label(c)), carried);
    }
  }

  lemma {:induction false} LeaveInside(v: View, hist: seq<real>, seen: seq<real>, w: seq<real>, jj: nat, c: Class,
                                       d: Class, before: seq<Event>)
    requires Shape(v) && w != [] && c != Normal && jj < |w|
    requires Flagged(v, OnePass(hist))
    requires var n := v.count[Index(c)];
             && 0 < n <= OVER + 1 && Counting(v, c, n)
             && OnePass(seen) == Trail(before, c, if n > OVER then OVER else n)
             && (n > OVER <==> d == c)
             && Found(v, hist, w) == before + Entry(c, n, |seen|)
    ensures AtRun(Leave(v, |w|, jj, c), hist, seen, w, d)
  {
    hide OnePass, Carried, SafeLog;
    var l := Leave(v, |w|, jj, c);
    assert New(l) == New(v);
    assert Advance(OnePass(seen), |seen|, d) == Trail(Found(l, hist, w), d, if d == Normal then 0 else 1);
  }

  lemma {:induction false} LeaveAtEnd(v: View, hist: seq<real>, seen: seq<real>, w: seq<real>, c: Class,
                                      before: seq<Event>)
    requires Shape(v) && w != [] && c != Normal
    requires var n := v.count[Index(c)];
             && 0 < n <= OVER && Counting(v, c, n)
             && OnePass(seen) == Trail(before, c, n)
             && Found(v, hist, w) == before + Entry(c, n, |seen|)
             && |Entry(c, n, |seen|)| <= v.report
    ensures AtEnd(Leave(v, |w|, |w|, c), hist, seen, w)
  {
    hide OnePass, Carried, SafeLog;
    var l := Leave(v, |w|, |w|, c);
    assert New(l) == New(v);
  }

  lemma {:induction false} FoundGrows(r: View, v: View, v0: View, hist: seq<real>, w: seq<real>, entry: seq<Event>)
    requires w != [] && Shape(r) && Shape(v) && Shape(v0) && New(r) == New(v) + entry
    requires v.log == v0.log && v.report == v0.report
    ensures Found(r, hist, w) == Found(v0, hist, w) + entry
  {
  }

  lemma {:induction false} CountedFacts(v0: View, v: View, hist: seq<real>, seen0: seq<real>, seen: seq<real>,
                                        w: seq<real>, jj0: nat, jj: nat, c: Class)
    requires Counted(v0, v, hist, seen0, seen, w, jj0, jj, c)
    ensures Recordable(v, jj, c, |seen0|, |seen|, Carried(hist, w))
    ensures Shape(v0) && Flagged(v, OnePass(hist)) && Counting(v, c, v.count[Index(c)])
    ensures OnePass(seen) == Trail(Found(v0, hist, w), c, if v.count[Index(c)] > OVER then OVER else v.count[Index(c)])
  {
    hide OnePass, Advance, Classify, SafeLog;
    if v.count[Index(c)] <= OVER {
      ContinuesIff(v0, v, hist, seen0, seen, w, jj0, jj, c);
    }
  }

  lemma {:induction false} RunDone(v0: View, v: View, hist: seq<real>, seen0: seq<real>, seen: seq<real>,
                                   w: seq<real>, jj0: nat, jj: nat, c: Class)
    requires Counted(v0, v, hist, seen0, seen, w, jj0, jj, c) && Reading(hist, seen, w, jj)
    ensures CanRecord(v, jj, c) && Shape(Record(v, |hist|, jj, c))
    ensures Scanning(Leave(Record(v, |hist|, jj, c), |w|, jj, c), hist, seen, w, jj)
  {
    hide OnePass, Advance, Classify, Found, AtRun, AtEnd, SafeLog, Reading, EndsWith, Record, Entry, New, Carried,
      Leave, Continues, InPiece, Counting, Flagged;
    CountedFacts(v0, v, hist, seen0, seen, w, jj0, jj, c);
    var n, before := v.count[Index(c)], Found(v0, hist, w);
    RecordLogs(v, |hist|, jj, c, |seen0|, Carried(hist, w));
    var r := Record(v, |hist|, jj, c);
    FoundGrows(r, v, v0, hist, w, Entry(c, n, |seen|));
    SameCounters(r, v, OnePass(hist), c, n);
    if jj < |w| {
      LeaveInside(r, hist, seen, w, jj, c, Classify(w[jj]), before);
    } else {
      LeaveAtEnd(r, hist, seen, w, c, before);
    }
    LeaveKeeps(r, |w|, jj, c, Carried(hist, w));
  }

  lemma {:induction false} SameCounters(r: View, v: View, t: Trail, c: Class, n: nat)
    requires Shape(r) && r == v.(log := r.log, report := r.report)
    ensures Flagged(v, t) ==> Flagged(r, t)
    ensures Counting(v, c, n) ==> Counting(r, c, n)
  {
  }

  lemma {:induction false} LeaveKeeps(v: View, len: nat, jj: nat, c: Class, carried: seq<Event>)
    requires Shape(v) && c != Normal
    ensures var l := Leave(v, len, jj, c);
            && Shape(l) && l.log == v.log && l.report == v.report
            && (EndsWith(v, carried, v.report) ==> EndsWith(l, carried, l.report))
  {
  }

  // ---- The ends of the scan ----

  // The counters of the classes the first sample is not in are cleared.
  function Reset(v: View, x: real): View
    requires Shape(v)
  {
    var c0 := if x > 0.9 || x < 0.1 then v.count[0 := 0] else v.count;
    var c1 := if x >= 0.1 then c0[1 := 0] else c0;
    var c2 := if x < 1.1 then c1[2 := 0] else c1;
    v.(count := c2, report := 0)
  }

  lemma {:induction false} ScanStarts(v: View, hist: seq<real>, w: seq<real>)
    requires Between(v, hist) && w != []
    ensures Scanning(Reset(v, w[0]), hist, hist, w, 0)
  {
    hide OnePass, SafeLog;
    var r, t, c := Reset(v, w[0]), OnePass(hist), Classify(w[0]);
    assert New(r) == [];
    assert Counting(r, c, if c == t.cls then t.count else 0);
  }

  lemma {:induction false} SkipNormal(v: View, hist: seq<real>, seen: seq<real>, w: seq<real>, jj: nat)
    requires Scanning(v, hist, seen, w, jj) && jj < |w| && Classify(w[jj]) == Normal
    ensures Scanning(v, hist, seen + [w[jj]], w, jj + 1)
  {
    ReadOne(hist, seen, w, jj);
    hide OnePass, Reading;
    assert Found(v, hist, w) + [] == Found(v, hist, w);
  }

  function ClearFlags(v: View, x: real): View {
    if x > 0.9 && x < 1.1 then v.(flag := [0, 0, 0]) else v
  }

  lemma {:induction false} AllRead(hist: seq<real>, seen: seq<real>, w: seq<real>)
    requires Reading(hist, seen, w, |w|) && w != []
    ensures seen == hist + w && OnePass(seen).cls == Classify(w[|w| - 1])
  {
    hide OnePass;
  }

  lemma {:induction false} ScanEnds(v: View, hist: seq<real>, seen: seq<real>, w: seq<real>)
    requires Scanning(v, hist, seen, w, |w|)
    ensures Scanned(ClearFlags(v, w[|w| - 1]), hist, w)
  {
    AllRead(hist, seen, w);
    var c := ClearFlags(v, w[|w| - 1]);
    assert Found(c, hist, w) == Found(v, hist, w) by {
      assert New(c) == New(v);
    }
    hide OnePass, SafeLog, Reading, Carried, Advance, Found;
    assert AtEnd(c, hist, seen, w) && Flagged(c, OnePass(seen));
  }

  function Zip(ts: seq<int>, te: seq<int>, an: seq<Description>): (log: seq<Event>)
    requires |ts| == |te| == |an|
    ensures |log| == |ts|
  {
    seq(|ts|, i requires 0 <= i < |ts| => Event(ts[i], te[i], an[i]))
  }

  /** One phase of the analysis object. */
  class Phase {
    var count: seq<nat>
    var saved: seq<nat>
    var flag: seq<nat>
    var ts: seq<int>
    var te: seq<int>
    var an: seq<Description>
    var report: nat        // entries logged by the current window
    var lastReport: nat    // last_window_rep
    var lastValue: real    // last_window_val

    ghost predicate Aligned()
      reads this
    {
      |ts| == |te| == |an| && |count| == |saved| == |flag| == 3 && report <= |ts|
    }

    ghost function V(): (v: View)
      requires Aligned()
      reads this
      ensures Shape(v)
    {
      View(count, saved, flag, Zip(ts, te, an), report)
    }

    constructor ()
      ensures Aligned() && Between(V(), []) && lastReport == 0
    {
      count, saved, flag := [0, 0, 0], [0, 0, 0], [0, 0, 0];
      ts, te, an := [], [], [];
      report, lastReport, lastValue := 0, 0, 0.0;
    }

    // The inner loop: counts the samples of class `c` from `jj0` on, and stops at the end of the run, at the end
    // of the window, or in front of the sample that makes the counter exceed the cap.
    method Bump(c: Class) returns (n: nat)
      requires Aligned() && c != Normal
      modifies `count
      ensures Aligned() && V() == Bumped(old(V()), c) && n == V().count[Index(c)]
    {
      count := count[Index(c) := count[Index(c)] + 1];
      n := count[Index(c)];
    }

    method CountRun(w: seq<real>, jj0: nat, c: Class, ghost hist: seq<real>, ghost seen0: seq<real>)
      returns (jj: nat, ghost seen: seq<real>)
      requires Aligned() && jj0 < |w| && Classify(w[jj0]) == c != Normal && Scanning(V(), hist, seen0, w, jj0)
      modifies `count
      ensures Aligned() && Reading(hist, seen, w, jj)
      ensures Counted(old(V()), V(), hist, seen0, seen, w, jj0, jj, c)
    {
      ghost var v0 := V();
      RunStarts(v0, hist, seen0, w, jj0, c);
      hide Midway, Scanning, Counted, Reading, Bumped, Classify, V;
      jj, seen := jj0, seen0;
      while Classify(w[jj]) == c
        invariant jj0 <= jj < |w| && Aligned() && Midway(v0, V(), hist, seen, w, jj0, jj, c)
        decreases |w| - jj
      {
        ghost var v := V();
        MidwayFacts(v0, v, hist, seen, w, jj0, jj, c);
        RunCounted(v0, v, hist, seen0, seen, w, jj0, jj, c);
        var n := Bump(c);
        BumpedCount(v, c);
        if n > OVER {
          return;
        }
        RunCounts(v0, v, hist, seen, w, jj0, jj, c);
        jj, seen := jj + 1, seen + [w[jj]];
        if jj >= |w| {
          break;
        }
      }
      MidwayFacts(v0, V(), hist, seen, w, jj0, jj, c);
      RunCounted(v0, V(), hist, seen0, seen, w, jj0, jj, c);
    }

    method PushEvent(start: int, end: int, description: Description)
      requires Aligned()
      modifies `ts, `te, `an, `report
      ensures Aligned() && V() == Push(old(V()), Event(start, end, description))
    {
      ts, te, an := ts + [start], te + [end], an + [description];
      report := report + 1;
    }

    method PopEvent()
      requires Aligned() && report == 0 && ts != []
      modifies `ts, `te, `an
      ensures Aligned() && V() == Pop(old(V()))
    {
      ts, te, an := ts[..|ts| - 1], te[..|te| - 1], an[..|an| - 1];
    }

    method RecordRun(base: int, jj: nat, c: Class)
      requires Aligned() && CanRecord(V(), jj, c)
      modifies `ts, `te, `an, `report
      ensures Aligned() && V() == Record(old(V()), base, jj, c)
    {
      var i := Index(c);
      if count[i] > OVER {
        PushEvent(base + jj - count[i] - 1, base + jj, CapLabel(c));
      } else if c != Sag || count[i] > MAX_WDW_SAG {
        if jj - count[i] + saved[i] == 0 && flag[i] == 1 && (c == Sag ==> saved[i] > MAX_WDW_SAG) {
          PopEvent();
        }
        PushEvent(base + jj - count[i] - 1, base + jj, Label(c));
      }
    }

    method LeaveRun(len: nat, jj: nat, c: Class)
      requires Aligned() && c != Normal
      modifies `count, `saved, `flag
      ensures Aligned() && V() == Leave(old(V()), len, jj, c)
    {
      var i := Index(c);
      if jj == len && count[i] > 0 && count[i] <= OVER {
        flag := [0, 0, 0][i := 1];
        saved := saved[i := count[i]];
      } else {
        count := count[i := 0];
      }
    }

    // One of the three branches for an abnormal sample at `jj0`; `c` tells which.
    method AbnormalRun(w: seq<real>, base: int, jj0: nat, c: Class, ghost hist: seq<real>, ghost seen0: seq<real>)
      returns (jj: nat, ghost seen: seq<real>)
      requires Aligned() && jj0 < |w| && Classify(w[jj0]) == c != Normal && Scanning(V(), hist, seen0, w, jj0)
      requires base == |hist|
      modifies `count, `saved, `flag, `ts, `te, `an, `report
      ensures Aligned() && Scanning(V(), hist, seen, w, jj)
      ensures jj0 <= jj && (jj == jj0 ==> count[Index(c)] < old(count)[Index(c)])
    {
      ghost var v0 := V();
      jj, seen := CountRun(w, jj0, c, hist, seen0);
      RunDone(v0, V(), hist, seen0, seen, w, jj0, jj, c);
      hide Scanning, Zip, AtRun, OnePass, SafeLog, EndsWith, InPiece, Found;
      RecordRun(base, jj, c);
      LeaveRun(|w|, jj, c);
    }

    method ResetCounters(x: real)
      requires Aligned()
      modifies `count, `report
      ensures Aligned() && V() == Reset(old(V()), x)
    {
      if x > 0.9 || x < 0.1 {
        count := count[0 := 0];
      }
      if x >= 0.1 {
        count := count[1 := 0];
      }
      if x < 1.1 {
        count := count[2 := 0];
      }
      report := 0;
    }

    method ClearFlag(x: real)
      requires Aligned()
      modifies `flag
      ensures Aligned() && V() == ClearFlags(old(V()), x)
    {
      if x > 0.9 && x < 1.1 {
        flag := [0, 0, 0];
      }
    }

    // Lines 1479-1602: the resets, the scan and the clearing of the flags for one phase.
    method ScanWindow(w: seq<real>, base: int, ghost hist: seq<real>)
      requires Aligned() && Between(V(), hist) && w != [] && base == |hist|
      modifies `count, `saved, `flag, `ts, `te, `an, `report
      ensures Aligned() && Scanned(V(), hist, w)
    {
      ScanStarts(V(), hist, w);
      hide Scanning, Between, Scanned, OnePass, Zip, Reset, ClearFlags, V;
      ResetCounters(w[0]);
      var jj := 0;
      ghost var seen := hist;
      while jj < |w|
        invariant jj <= |w| && Aligned() && Scanning(V(), hist, seen, w, jj)
        decreases |w| - jj, if jj < |w| && Classify(w[jj]) != Normal then count[Index(Classify(w[jj]))] else 0
      {
        if 0.1 <= w[jj] && w[jj] <= 0.9 {
          jj, seen := AbnormalRun(w, base, jj, Sag, hist, seen);
        } else if w[jj] < 0.1 {
          jj, seen := AbnormalRun(w, base, jj, Interruption, hist, seen);
        } else if w[jj] >= 1.1 {
          jj, seen := AbnormalRun(w, base, jj, Swell, hist, seen);
        } else {
          SkipNormal(V(), hist, seen, w, jj);
          jj, seen := jj + 1, seen + [w[jj]];
          if jj >= |w| {
            break;
          }
        }
      }
      ScanEnds(V(), hist, seen, w);
      ClearFlag(w[|w| - 1]);
    }
  }
}
