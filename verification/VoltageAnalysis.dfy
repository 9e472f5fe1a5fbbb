/** The analysis object: three phases scanned window by window, and the reports that leave it. */
module VoltageAnalysis {
  import opened VoltageEvents
  import opened VoltageDetector
  import opened VoltageMeaning

  const PHASES := 3
  const SEVERITY := 10

  datatype ReportMe = ReportMe(phase: nat, starttime: int, endtime: int, severity: int, description: Description)

  // The events reported for phase `j`, in the order of the reports.
  function Of(reports: seq<ReportMe>, j: nat): seq<Event> {
    if reports == [] then []
    else
      var r := reports[|reports| - 1];
      Of(reports[..|reports| - 1], j)
      + if r.phase == j then [Event(r.starttime, r.endtime, r.description)] else []
  }

  lemma {:induction false} OfAppend(a: seq<ReportMe>, b: seq<ReportMe>, j: nat)
    ensures Of(a + b, j) == Of(a, j) + Of(b, j)
    decreases |b|
  {
    if b == [] {
      assert a + b == a;
    } else {
      var b' := b[..|b| - 1];
      assert (a + b)[..|a + b| - 1] == a + b';
      OfAppend(a, b', j);
    }
  }

  lemma {:induction false} OfMore(a: seq<ReportMe>, r: ReportMe)
    ensures forall j: nat :: Of(a + [r], j) ==
              Of(a, j) + if j == r.phase then [Event(r.starttime, r.endtime, r.description)] else []
  {
    assert (a + [r])[..|a|] == a;
  }

  // A report of one of the three phases, of severity 10.
  predicate IsReport(r: ReportMe) {
    r.phase < 3 && r.severity == 10
  }

  // What the end of the previous window has left behind.
  ghost predicate Remembered(lastReport: nat, lastValue: real, hist: seq<real>) {
    && lastReport == (if OnePass(hist).Pending(|hist|) != [] then 1 else 0)
    && (hist != [] ==> lastValue == hist[|hist| - 1])
  }

  // The window ends inside an event that is labelled, and so reported later.
  predicate EndsLabelled(saved: seq<nat>, flag: seq<nat>)
    requires |saved| == |flag| == 3
  {
    (flag[0] == 1 && saved[0] > MAX_WDW_SAG) || flag[1] == 1 || flag[2] == 1
  }

  // The previous window ended inside a labelled event and this one does not go on with it.
  predicate EventOver(lastReport: nat, lastValue: real, first: real) {
    lastReport == 1 &&
    ((lastValue < 0.1 && first >= 0.1) || (lastValue >= 0.1 && lastValue <= 0.9 && first < 0.1) ||
     (lastValue >= 0.1 && lastValue <= 0.9 && first > 0.9) || (lastValue >= 1.1 && first < 1.1))
  }

  lemma {:induction false} EndsLabelledIff(v: View, t: Trail, end: int)
    requires Flagged(v, t) && (t.count == 0 <==> t.cls == Normal)
    ensures EndsLabelled(v.saved, v.flag) <==> t.Pending(end) != []
  {
  }

  lemma {:induction false} EventOverIff(lastReport: nat, lastValue: real, hist: seq<real>, w: seq<real>)
    requires Remembered(lastReport, lastValue, hist) && w != []
    ensures EventOver(lastReport, lastValue, w[0]) <==> Carried(hist, w) != []
  {
  }

  // The entries of the log that are printed: those of the current window, with the one carried over when it is
  // over, and without the last one when it is still going on.
  datatype Range = Range(first: int, n: int)

  function PrintedRange(labelled: bool, over: bool, size: nat, report: nat): Range {
    Range(size - report - (if over then 1 else 0), report + (if over then 1 else 0) - (if labelled then 1 else 0))
  }

  lemma {:induction false} Printed(before: seq<Event>, carried: seq<Event>, log: seq<Event>, report: nat,
                                   settled: seq<Event>, pending: seq<Event>)
    requires |carried| <= 1 && |pending| <= 1 && report <= |log|
    requires carried != [] ==> report < |log| && log[|log| - report - 1] == carried[0]
    requires pending != [] ==> report > 0
    requires settled + pending == before + carried + log[|log| - report..]
    ensures before + log[|log| - report - |carried|..|log| - |pending|] == settled
  {
    var first := |log| - report - |carried|;
    assert log[first..] == carried + log[|log| - report..];
    assert log[first..|log| - |pending|] == log[first..][..report + |carried| - |pending|];
    assert settled == (settled + pending)[..|settled|] == (before + log[first..])[..|settled|];
  }

  ghost predicate Prints(r: Range, log: seq<Event>, hist: seq<real>, w: seq<real>) {
    && 0 <= r.first && 0 <= r.n && r.first + r.n <= |log|
    && OnePass(hist).settled + log[r.first..r.first + r.n] == OnePass(hist + w).settled
  }

  lemma {:induction false} PrintedEvents(v: View, hist: seq<real>, w: seq<real>, labelled: bool, over: bool)
    requires Scanned(v, hist, w)
    requires labelled <==> OnePass(hist + w).Pending(|hist + w|) != []
    requires over <==> Carried(hist, w) != []
    ensures Prints(PrintedRange(labelled, over, |v.log|, v.report), v.log, hist, w)
  {
    hide OnePass, SafeLog, Flagged, Counting, Carried, Advance;
    Printed(OnePass(hist).settled, Carried(hist, w), v.log, v.report, OnePass(hist + w).settled,
            OnePass(hist + w).Pending(|hist + w|));
  }

  lemma {:induction false} NothingPrinted(v: View, hist: seq<real>, w: seq<real>, lastReport: nat, lastValue: real)
    requires Scanned(v, hist, w) && Remembered(lastReport, lastValue, hist)
    requires v.report == 0 && lastReport == 0
    ensures OnePass(hist).settled == OnePass(hist + w).settled
  {
    hide OnePass, SafeLog;
    PrintedEvents(v, hist, w, false, false);
  }

  // One of the twelve printing loops: `n` elements of a log column, from `offset` places before the last `report`.
  method PrintColumn<T>(col: seq<T>, report: nat, offset: nat, n: int, ghost first: nat) returns (out: seq<T>)
    requires first == |col| - report - offset && 0 <= n <= report + offset
    ensures out == col[first..first + n]
  {
    out := [];
    var yy := 0;
    while yy < n
      invariant 0 <= yy <= n && out == col[first..first + yy]
    {
      out := out + [col[|col| - report + yy - offset]];
      yy := yy + 1;
    }
  }

  // One phase between two windows, and one phase whose window is scanned and not yet reported.
  ghost predicate Waiting(p: Phase, hist: seq<real>)
    reads p
  {
    p.Aligned() && Between(p.V(), hist) && Remembered(p.lastReport, p.lastValue, hist)
  }

  ghost predicate Loaded(p: Phase, hist: seq<real>, w: seq<real>)
    reads p
  {
    p.Aligned() && Scanned(p.V(), hist, w) && Remembered(p.lastReport, p.lastValue, hist)
  }

  lemma {:induction false} ZipSlice(ts: seq<int>, te: seq<int>, an: seq<Description>, first: nat, n: nat)
    requires |ts| == |te| == |an| && first + n <= |ts|
    ensures Zip(ts[first..first + n], te[first..first + n], an[first..first + n]) == Zip(ts, te, an)[first..first + n]
  {
  }

  lemma {:induction false} PrintingFacts(p: Phase, hist: seq<real>, w: seq<real>, labelled: bool, over: bool)
    requires Loaded(p, hist, w)
    requires labelled == EndsLabelled(p.saved, p.flag)
    requires over == EventOver(p.lastReport, p.lastValue, w[0])
    ensures Prints(PrintedRange(labelled, over, |p.ts|, p.report), p.V().log, hist, w)
  {
    EndsLabelledIff(p.V(), OnePass(hist + w), |hist + w|);
    EventOverIff(p.lastReport, p.lastValue, hist, w);
    PrintedEvents(p.V(), hist, w, labelled, over);
  }

  // Prints the three columns of one phase: what has become settled since the previous window.
  method PrintPhase(p: Phase, w: seq<real>, ghost hist: seq<real>)
    returns (starttime: seq<int>, endtime: seq<int>, description: seq<Description>)
    requires Loaded(p, hist, w)
    ensures |starttime| == |endtime| == |description|
    ensures OnePass(hist).settled + Zip(starttime, endtime, description) == OnePass(hist + w).settled
  {
    var labelled := EndsLabelled(p.saved, p.flag);
    var over := EventOver(p.lastReport, p.lastValue, w[0]);
    PrintingFacts(p, hist, w, labelled, over);
    hide OnePass, Scanned, Remembered, EndsLabelled, EventOver, Between;
    starttime, endtime, description := PrintColumns(p, labelled, over);
  }

  method PrintColumns(p: Phase, labelled: bool, over: bool)
    returns (starttime: seq<int>, endtime: seq<int>, description: seq<Description>)
    requires p.Aligned()
    requires var r := PrintedRange(labelled, over, |p.ts|, p.report);
             0 <= r.first && 0 <= r.n && r.first + r.n <= |p.ts|
    ensures |starttime| == |endtime| == |description|
    ensures var r := PrintedRange(labelled, over, |p.ts|, p.report);
            Zip(starttime, endtime, description) == Zip(p.ts, p.te, p.an)[r.first..r.first + r.n]
  {
    hide Zip;
    var offset, n := if over then 1 else 0, p.report + (if over then 1 else 0) - (if labelled then 1 else 0);
    ghost var first := |p.ts| - p.report - offset;
    starttime := PrintColumn(p.ts, p.report, offset, n, first);
    endtime := PrintColumn(p.te, p.report, offset, n, first);
    description := PrintColumn(p.an, p.report, offset, n, first);
    ZipSlice(p.ts, p.te, p.an, first, n);
  }

  class Analysis {
    const size: nat
    const phases: seq<Phase>
    var kk: int
    var reportp1: seq<ReportMe>
    var published: seq<ReportMe>
    ghost var hist: seq<seq<real>>  // all samples of each phase

    ghost predicate Shape()
      reads `hist
    {
      && size > 0 && |phases| == |hist| == PHASES
      && (forall i, j :: 0 <= i < j < PHASES ==> phases[i] != phases[j])
    }

    // Position of the first sample of a window when `k` windows are read.
    function Base(k: int): int {
      k * size
    }

    lemma {:induction false} NextBase(k: int)
      ensures Base(k + 1) == Base(k) + size
    {
    }

    ghost predicate AllWaiting(hists: seq<seq<real>>, read: int)
      reads phases
    {
      && |phases| == |hists| == PHASES
      && forall i :: 0 <= i < PHASES ==> Waiting(phases[i], hists[i]) && |hists[i]| == read
    }

    ghost predicate AllLoaded(hists: seq<seq<real>>, input: seq<seq<real>>)
      reads phases
    {
      |phases| == |hists| == |input| == PHASES && forall i :: 0 <= i < PHASES ==> Loaded(phases[i], hists[i], input[i])
    }

    // Between two records: everything settled so far has been published, phase by phase and in order.
    ghost predicate Valid()
      reads this, phases
    {
      && Shape() && reportp1 == [] && AllWaiting(hist, Base(kk - 1))
      && (forall r <- published :: IsReport(r))
      && forall i: nat :: i < PHASES ==> Of(published, i) == OnePass(hist[i]).settled
    }

    ghost predicate Windows(input: seq<seq<real>>) {
      |input| == PHASES && forall i :: 0 <= i < PHASES ==> |input[i]| == size
    }

    // The samples of each phase once the window `input` is over.
    ghost function After(input: seq<seq<real>>): (r: seq<seq<real>>)
      requires Shape() && Windows(input)
      reads `hist
      ensures |r| == PHASES && forall i :: 0 <= i < PHASES ==> r[i] == hist[i] + input[i]
    {
      [hist[0] + input[0], hist[1] + input[1], hist[2] + input[2]]
    }

    constructor (size: nat)
      requires size > 0
      ensures Follows([]) && this.size == size
      ensures |phases| == PHASES && fresh(phases[0]) && fresh(phases[1]) && fresh(phases[2])
    {
      var a := new Phase();
      var b := new Phase();
      var c := new Phase();
      this.size := size;
      phases := [a, b, c];
      kk := 1;
      reportp1, published := [], [];
      hist := [[], [], []];
      new;
      StartsValid(a, b, c);
    }

    lemma {:induction false} StartsValid(a: Phase, b: Phase, c: Phase)
      requires a != b && b != c && a != c && phases == [a, b, c] && size > 0
      requires kk == 1 && hist == [[], [], []] && reportp1 == published == []
      requires forall p <- phases :: p.Aligned() && Between(p.V(), []) && p.lastReport == 0
      ensures Follows([])
    {
      NoReports();
      assert OnePass([]).settled == [];
      assert Waiting(a, []) && Waiting(b, []) && Waiting(c, []);
      hide Waiting, OnePass, Of;
    }

    method MakeReports(j: nat, starttime: seq<int>, endtime: seq<int>, description: seq<Description>)
      requires |starttime| == |endtime| == |description|
      requires j < PHASES && forall r <- reportp1 :: IsReport(r)
      modifies `reportp1
      ensures forall r <- reportp1 :: IsReport(r)
      ensures forall p: nat :: Of(reportp1, p) ==
                Of(old(reportp1), p) + if p == j then Zip(starttime, endtime, description) else []
    {
      var i := 0;
      while i < |starttime|
        invariant i <= |starttime| && forall r <- reportp1 :: IsReport(r)
        invariant forall p: nat :: Of(reportp1, p) ==
                    Of(old(reportp1), p) + if p == j then Zip(starttime, endtime, description)[..i] else []
      {
        OfMore(reportp1, ReportMe(j, starttime[i], endtime[i], SEVERITY, description[i]));
        reportp1 := reportp1 + [ReportMe(j, starttime[i], endtime[i], SEVERITY, description[i])];
        i := i + 1;
      }
    }

    ghost predicate AllReported(hists: seq<seq<real>>, input: seq<seq<real>>, reports: seq<ReportMe>) {
      && |hists| == |input| == PHASES
      && forall i: nat :: i < PHASES ==>
           OnePass(hists[i]).settled + Of(reports, i) == OnePass(hists[i] + input[i]).settled
    }

    method PrintReports(input: seq<seq<real>>, ghost hists: seq<seq<real>>)
      requires AllLoaded(hists, input) && reportp1 == []
      modifies `reportp1
      ensures AllReported(hists, input, reportp1) && forall r <- reportp1 :: IsReport(r)
    {
      hide OnePass, Loaded, Of, Zip;
      NoReports();
      var j := 0;
      while j < PHASES
        invariant j <= PHASES && forall r <- reportp1 :: IsReport(r)
        invariant forall i: nat :: j <= i < PHASES ==> Of(reportp1, i) == []
        invariant forall i: nat :: i < j ==>
                    OnePass(hists[i]).settled + Of(reportp1, i) == OnePass(hists[i] + input[i]).settled
      {
        var starttime, endtime, description := PrintPhase(phases[j], input[j], hists[j]);
        MakeReports(j, starttime, endtime, description);
        j := j + 1;
      }
    }

    lemma {:induction false} NothingToPrint(input: seq<seq<real>>, hists: seq<seq<real>>)
      requires AllLoaded(hists, input)
      requires forall i :: 0 <= i < PHASES ==> phases[i].report == 0 && phases[i].lastReport != 1
      ensures AllReported(hists, input, [])
    {
      NoReports();
      forall i: nat | i < PHASES
        ensures OnePass(hists[i]).settled == OnePass(hists[i] + input[i]).settled
      {
        var p := phases[i];
        NothingPrinted(p.V(), hists[i], input[i], p.lastReport, p.lastValue);
      }
    }

    method ScanPhases(input: seq<seq<real>>, ghost hists: seq<seq<real>>)
      requires Shape() && Windows(input) && AllWaiting(hists, Base(kk - 2))
      modifies phases
      ensures AllLoaded(hists, input)
    {
      hide Waiting, OnePass, Loaded, Base;
      var aa := 0;
      while aa < PHASES
        invariant aa <= PHASES
        invariant forall i :: 0 <= i < aa ==> Loaded(phases[i], hists[i], input[i])
        invariant forall i :: aa <= i < PHASES ==> Waiting(phases[i], hists[i])
      {
        ScanPhase(phases[aa], input[aa], Base(kk - 2), hists[aa]);
        aa := aa + 1;
      }
    }

    method RememberPhases(input: seq<seq<real>>, ghost hists: seq<seq<real>>)
      requires Shape() && Windows(input) && AllLoaded(hists, input)
      modifies phases
      ensures forall i :: 0 <= i < PHASES ==> Waiting(phases[i], hists[i] + input[i])
    {
      hide Waiting, OnePass, Loaded;
      var ii := 0;
      while ii < PHASES
        invariant ii <= PHASES
        invariant forall i :: 0 <= i < ii ==> Waiting(phases[i], hists[i] + input[i])
        invariant forall i :: ii <= i < PHASES ==> Loaded(phases[i], hists[i], input[i])
      {
        Remember(phases[ii], input[ii], hists[ii]);
        ii := ii + 1;
      }
    }

    // Lines 1476-1615, with (kk - 2) * size samples of each phase already read.
    method VoltageLimitMain(input: seq<seq<real>>)
      requires Shape() && Windows(input) && reportp1 == [] && AllWaiting(hist, Base(kk - 2))
      modifies phases, `reportp1, `hist
      ensures Shape() && hist == old(After(input)) && AllWaiting(hist, Base(kk - 1))
      ensures AllReported(old(hist), input, reportp1) && forall r <- reportp1 :: IsReport(r)
    {
      NextBase(kk - 2);
      hide Waiting, Of, OnePass, Loaded, Base, AllReported;
      ghost var hists := hist;
      ScanPhases(input, hists);
      if phases[0].report > 0 || phases[1].report > 0 || phases[2].report > 0 ||
         phases[0].lastReport == 1 || phases[1].lastReport == 1 || phases[2].lastReport == 1 {
        PrintReports(input, hists);
      } else {
        NothingToPrint(input, hists);
      }
      RememberPhases(input, hists);
      hist := After(input);
      assert forall i :: 0 <= i < PHASES ==> hist[i] == hists[i] + input[i];
    }

    // The records seen so far are `records`.
    ghost predicate Follows(records: seq<seq<seq<real>>>)
      reads this, phases
    {
      Valid() && forall i :: 0 <= i < PHASES ==> hist[i] == Stream(records, i)
    }

    method ProcessNext(records: seq<seq<seq<real>>>, n: nat)
      requires n < |records| && Sized(records[n], size)
      requires Follows(records[..n])
      modifies this, phases
      ensures Follows(records[..n + 1])
    {
      StreamMore(records, n);
      assert Shape();
      hide Valid, OnePass, Of, Stream;
      ProcessRecord(records[n]);
    }

    // Lines 1177-1178, 1183-1261: one record of samples is analysed and its reports are published.
    method ProcessRecord(input: seq<seq<real>>)
      requires Valid() && Windows(input)
      modifies this, phases
      ensures Valid() && hist == old(After(input)) && old(published) <= published
    {
      hide Waiting, OnePass, Of;
      kk := kk + 1;
      VoltageLimitMain(input);
      OfAppend(published, reportp1, 0);
      OfAppend(published, reportp1, 1);
      OfAppend(published, reportp1, 2);
      published := published + reportp1;
      reportp1 := [];
    }
  }

  // All samples of phase `i`, in the order of the records.
  function Stream(records: seq<seq<seq<real>>>, i: nat): seq<real> {
    if records == [] then []
    else
      var r := records[|records| - 1];
      Stream(records[..|records| - 1], i) + if i < |r| then r[i] else []
  }

  // Every record holds `size` samples of each phase.
  predicate Sized(r: seq<seq<real>>, size: nat) {
    |r| == PHASES && forall i :: 0 <= i < PHASES ==> |r[i]| == size
  }

  // The thread's whole run over records of `size` samples. Whatever the window size, what is published
  // depends on the stream alone.
  method Run(size: nat, records: seq<seq<seq<real>>>) returns (published: seq<ReportMe>)
    requires size > 0 && forall n :: 0 <= n < |records| ==> Sized(records[n], size)
    ensures forall i: nat :: i < PHASES ==> Reports(published, Stream(records, i), i)
    ensures forall r <- published :: IsReport(r)
  {
    hide Analysis.Follows, Sized, Reports, Stream;
    var analysis := new Analysis(size);
    var n := 0;
    assert records[..0] == [];
    while n < |records|
      invariant n <= |records| && analysis.Follows(records[..n])
      invariant analysis.size == size && fresh(analysis) && |analysis.phases| == PHASES
      invariant fresh(analysis.phases[0]) && fresh(analysis.phases[1]) && fresh(analysis.phases[2])
    {
      analysis.ProcessNext(records, n);
      n := n + 1;
    }
    assert records[..n] == records;
    published := analysis.published;
    AllSettled(analysis, records);
  }

  // What has been published for phase `i` is final, and with the event still pending it is all there is. It means what
  // it says of the samples, and leaves out no abnormal sample but those of the piece the stream ends with and of short
  // sags.
  ghost predicate Reports(published: seq<ReportMe>, stream: seq<real>, i: nat) {
    var es, t := Of(published, i), OnePass(stream);
    && es == t.settled && es + t.Pending(|stream|) == EventsOfRuns(stream)
    && AllMean(es, stream) && Ordered(es) && t.count <= |stream|
    && AllCovered(|stream| - t.count, es, stream, |stream| - 1)
  }

  lemma {:induction false} AllSettled(analysis: Analysis, records: seq<seq<seq<real>>>)
    requires analysis.Follows(records)
    ensures forall i: nat :: i < PHASES ==> Reports(analysis.published, Stream(records, i), i)
    ensures forall r <- analysis.published :: IsReport(r)
  {
    forall i: nat | i < PHASES
      ensures Reports(analysis.published, analysis.hist[i], i)
    {
      OnePassMeaning(analysis.hist[i]);
      KeptByOnePass(analysis.hist[i]);
      hide OnePass, EventsOfRuns, AllMean, Ordered, AllCovered, VoltageMeaning.InPiece, Of;
    }
  }

  lemma {:induction false} StreamMore(records: seq<seq<seq<real>>>, n: nat)
    requires n < |records| && |records[n]| == PHASES
    ensures forall i: nat :: i < PHASES ==> Stream(records[..n + 1], i) == Stream(records[..n], i) + records[n][i]
  {
    assert records[..n + 1][..n] == records[..n];
  }

  method ScanPhase(p: Phase, w: seq<real>, base: int, ghost hist: seq<real>)
    requires Waiting(p, hist) && w != [] && |hist| == base
    modifies p
    ensures Loaded(p, hist, w)
  {
    p.ScanWindow(w, base, hist);
  }

  lemma {:induction false} ScannedIsBetween(v: View, hist: seq<real>, w: seq<real>)
    requires Scanned(v, hist, w)
    ensures Between(v, hist + w)
  {
    hide OnePass, SafeLog;
    var t, now := OnePass(hist + w), |hist + w|;
    var found := OnePass(hist).settled + Carried(hist, w);
    if t.Pending(now) != [] {
      assert (t.settled + t.Pending(now))[|t.settled|] == (found + New(v))[|found| + v.report - 1];
    }
  }

  // The last two loops, for one phase.
  method Remember(p: Phase, w: seq<real>, ghost hist: seq<real>)
    requires Loaded(p, hist, w)
    modifies p
    ensures Waiting(p, hist + w)
  {
    ScannedIsBetween(p.V(), hist, w);
    EndsLabelledIff(p.V(), OnePass(hist + w), |hist + w|);
    p.lastReport := if EndsLabelled(p.saved, p.flag) then 1 else 0;
    p.lastValue := w[|w| - 1];
  }

  lemma {:induction false} NoReports()
    ensures forall j: nat :: Of([], j) == []
  {
  }
}
