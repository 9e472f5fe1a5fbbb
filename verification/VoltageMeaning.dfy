/** What the events say about the samples, in per-unit voltages and numbers of samples. */
module VoltageMeaning {
  import opened VoltageEvents

  // The voltages a description stands for.
  predicate InBand(d: Description, v: real) {
    match d
    case VoltageSag => 0.1 <= v <= 0.9
    case UnderVoltage => 0.1 <= v <= 0.9
    case BriefInterruption => v < 0.1
    case SustainedInterruption => v < 0.1
    case VoltageSwell => v >= 1.1
    case OverVoltage => v >= 1.1
  }

  // The descriptions of what lasts for more than a minute.
  predicate IsLong(d: Description) {
    d.UnderVoltage? || d.SustainedInterruption? || d.OverVoltage?
  }

  predicate IsAbnormal(v: real) {
    v <= 0.9 || v >= 1.1
  }

  // The first sample of an event. It starts one before, and two before if it is long.
  function First(e: Event): int {
    if IsLong(e.description) then e.start + 2 else e.start + 1
  }

  // All samples of the event are of its band. A long one has 7200 samples and goes on; another has at most as many, a
  // sag more than three, and what follows it is not of its band. What precedes an event is not of its band either, or
  // is a long event it goes on with.
  ghost predicate Means(e: Event, xs: seq<real>, es: seq<Event>) {
    && 0 <= First(e) < e.end <= |xs|
    && (forall i :: First(e) <= i < e.end ==> InBand(e.description, xs[i]))
    && (if IsLong(e.description) then
          e.end - First(e) == 7200 && e.end < |xs| && InBand(e.description, xs[e.end])
        else
          && e.end - First(e) <= 7200 && (e.description.VoltageSag? ==> e.end - First(e) > 3)
          && (e.end < |xs| ==> !InBand(e.description, xs[e.end])))
    && Starts(First(e), e.description, xs, es)
  }

  ghost predicate Starts(first: nat, d: Description, xs: seq<real>, es: seq<Event>)
    requires first <= |xs|
  {
    || first == 0 || !InBand(d, xs[first - 1])
    || exists f <- es :: IsLong(f.description) && f.end == first
  }

  ghost predicate AllMean(es: seq<Event>, xs: seq<real>) {
    forall e <- es :: Means(e, xs, es)
  }

  // The events follow one another and share no sample.
  ghost predicate Ordered(es: seq<Event>) {
    forall i, j :: 0 <= i < j < |es| ==> es[i].end <= First(es[j])
  }

  ghost predicate Covered(i: int, es: seq<Event>) {
    exists e <- es :: First(e) <= i < e.end
  }

  // The sample is one of three or fewer in the sag band, behind which the band is left, at position `last` or before.
  ghost predicate InShortSag(i: nat, xs: seq<real>, last: int) {
    exists lo: nat, hi: nat :: ShortSag(lo, hi, xs) && lo <= i < hi <= last
  }

  ghost predicate ShortSag(lo: nat, hi: nat, xs: seq<real>) {
    && lo < hi <= |xs| && hi - lo <= 3
    && (forall k :: lo <= k < hi ==> 0.1 <= xs[k] <= 0.9)
    && (hi < |xs| ==> !(0.1 <= xs[hi] <= 0.9))
  }

  ghost predicate AllCovered(n: nat, es: seq<Event>, xs: seq<real>, last: int)
    requires n <= |xs|
  {
    forall i: nat :: i < n && IsAbnormal(xs[i]) ==> Covered(i, es) || InShortSag(i, xs, last)
  }

  lemma {:induction false} Bands(v: real)
    ensures Classify(v) == Sag <==> InBand(VoltageSag, v)
    ensures Classify(v) == Interruption <==> InBand(BriefInterruption, v)
    ensures Classify(v) == Swell <==> InBand(VoltageSwell, v)
    ensures Classify(v) == Normal <==> !IsAbnormal(v)
  {
  }

  lemma {:induction false} Labels(c: Class, v: real)
    requires c != Normal
    ensures InBand(Label(c), v) <==> Classify(v) == c
    ensures InBand(CapLabel(c), v) <==> Classify(v) == c
    ensures !IsLong(Label(c)) && IsLong(CapLabel(c)) && (Label(c) == VoltageSag <==> c == Sag)
  {
  }

  // ---- The invariant of the one-pass detector ----

  // The piece the samples end with begins at `first`.
  ghost predicate InPiece(c: Class, first: nat, xs: seq<real>, es: seq<Event>)
    requires first <= |xs|
  {
    if c == Normal then first == |xs|
    else
      && (forall i :: first <= i < |xs| ==> Classify(xs[i]) == c)
      && Starts(first, Label(c), xs, es)
  }

  ghost predicate Done(es: seq<Event>, first: nat, xs: seq<real>)
    requires first <= |xs|
  {
    && AllMean(es, xs) && Ordered(es) && AllCovered(first, es, xs, |xs| - 1)
    && forall e <- es :: e.end <= first && e.end < |xs|
  }

  ghost predicate Kept(t: Trail, xs: seq<real>) {
    && t.count <= |xs| && t.count <= 7200
    && InPiece(t.cls, |xs| - t.count, xs, t.settled) && Done(t.settled, |xs| - t.count, xs)
  }

  lemma {:induction false} StartsLater(first: nat, d: Description, xs: seq<real>, es: seq<Event>, x: real,
                                       e: seq<Event>)
    requires first <= |xs| && Starts(first, d, xs, es)
    ensures Starts(first, d, xs + [x], es + e)
  {
    if f :| f in es && IsLong(f.description) && f.end == first {
      assert f in es + e;
    }
  }

  // What is settled stays so when a sample is read and an event added.
  lemma {:induction false} MeansLater(e: Event, xs: seq<real>, es: seq<Event>, x: real, more: seq<Event>)
    requires Means(e, xs, es) && e.end < |xs|
    ensures Means(e, xs + [x], es + more)
  {
    hide Starts, InBand;
    StartsLater(First(e), e.description, xs, es, x, more);
  }

  lemma {:induction false} ShortSagLater(i: nat, xs: seq<real>, x: real)
    requires InShortSag(i, xs, |xs| - 1)
    ensures InShortSag(i, xs + [x], |xs|)
  {
    var lo: nat, hi: nat :| ShortSag(lo, hi, xs) && lo <= i < hi <= |xs| - 1;
    assert ShortSag(lo, hi, xs + [x]);
  }

  lemma {:induction false} CoveredLater(n: nat, es: seq<Event>, xs: seq<real>, x: real)
    requires n <= |xs| && AllCovered(n, es, xs, |xs| - 1)
    ensures AllCovered(n, es, xs + [x], |xs|)
  {
    hide IsAbnormal, Covered, InShortSag;
    forall i: nat | i < n && IsAbnormal((xs + [x])[i])
      ensures Covered(i, es) || InShortSag(i, xs + [x], |xs|)
    {
      assert (xs + [x])[i] == xs[i];
      if !Covered(i, es) {
        ShortSagLater(i, xs, x);
      }
    }
  }

  lemma {:induction false} DoneLater(es: seq<Event>, first: nat, xs: seq<real>, x: real)
    requires first <= |xs| && Done(es, first, xs)
    ensures Done(es, first, xs + [x])
  {
    CoveredLater(first, es, xs, x);
    hide Means, AllCovered, Ordered;
    forall e <- es
      ensures Means(e, xs + [x], es)
    {
      MeansLater(e, xs, es, x, []);
      assert es + [] == es;
    }
  }

  // An event of the piece from `first` to the last sample but one.
  lemma {:induction false} EventDone(es: seq<Event>, e: Event, first: nat, xs: seq<real>)
    requires first < |xs| && Done(es, first, xs) && First(e) == first && e.end == |xs| - 1
    requires Means(e, xs, es + [e])
    ensures Done(es + [e], |xs| - 1, xs)
  {
    var fs := es + [e];
    assert AllMean(fs, xs) by {
      hide Starts, InBand, AllCovered, Ordered;
      forall f <- es
        ensures Means(f, xs, fs)
      {
        MeansWithMore(f, xs, es, [e]);
      }
    }
    hide AllMean, Means, IsAbnormal, InShortSag;
    assert e in fs;
    forall i: nat | i < |xs| - 1 && IsAbnormal(xs[i])
      ensures Covered(i, fs) || InShortSag(i, xs, |xs| - 1)
    {
      if i < first && Covered(i, es) {
        var f :| f in es && First(f) <= i < f.end;
        assert f in fs;
      }
    }
  }

  lemma {:induction false} MeansWithMore(e: Event, xs: seq<real>, es: seq<Event>, more: seq<Event>)
    requires Means(e, xs, es)
    ensures Means(e, xs, es + more)
  {
    hide InBand;
    if f :| f in es && IsLong(f.description) && f.end == First(e) {
      assert f in es + more;
    }
  }

  // A piece without an event: nothing, or a short sag.
  lemma {:induction false} NothingDone(es: seq<Event>, first: nat, xs: seq<real>)
    requires first < |xs| && Done(es, first, xs)
    requires first == |xs| - 1 || ShortSag(first, |xs| - 1, xs)
    ensures Done(es, |xs| - 1, xs)
  {
    hide AllMean, Covered, ShortSag, IsAbnormal, Ordered;
    forall i: nat | i < |xs| - 1 && IsAbnormal(xs[i])
      ensures Covered(i, es) || InShortSag(i, xs, |xs| - 1)
    {
      if i >= first {
        assert ShortSag(first, |xs| - 1, xs) && first <= i < |xs| - 1;
      }
    }
  }

  lemma {:induction false} SameClass(c: Class, first: nat, xs: seq<real>)
    requires first <= |xs| && c != Normal && forall i :: first <= i < |xs| ==> Classify(xs[i]) == c
    ensures forall i :: first <= i < |xs| ==> InBand(Label(c), xs[i]) && InBand(CapLabel(c), xs[i])
  {
    forall i | first <= i < |xs|
      ensures InBand(Label(c), xs[i]) && InBand(CapLabel(c), xs[i])
    {
      Labels(c, xs[i]);
    }
  }

  // The piece goes on.
  lemma {:induction false} GoesOn(c: Class, es: seq<Event>, first: nat, xs: seq<real>, x: real)
    requires first <= |xs| && c != Normal && InPiece(c, first, xs, es) && Done(es, first, xs) && Classify(x) == c
    ensures InPiece(c, first, xs + [x], es) && Done(es, first, xs + [x])
  {
    hide Done, Starts, Classify;
    DoneLater(es, first, xs, x);
    StartsLater(first, Label(c), xs, es, x, []);
    assert es + [] == es;
  }

  lemma {:induction false} CapMeans(c: Class, es: seq<Event>, first: nat, xs: seq<real>, x: real)
    requires c != Normal && first + 7200 == |xs| && InPiece(c, first, xs, es) && Classify(x) == c
    ensures var e := CapEvent(c, |xs|);
            First(e) == first && e.end == |xs| && IsLong(e.description) && Means(e, xs + [x], es + [e])
  {
    var e := CapEvent(c, |xs|);
    StartsLater(first, Label(c), xs, es, x, [e]);
    Labels(c, x);
    if first > 0 {
      Labels(c, xs[first - 1]);
    }
    SameClass(c, first, xs);
    hide Classify, InBand, Label, CapLabel;
  }

  // The piece reaches its 7200 samples, and the run goes on.
  lemma {:induction false} Capped(c: Class, es: seq<Event>, first: nat, xs: seq<real>, x: real)
    requires c != Normal && first + 7200 == |xs| && InPiece(c, first, xs, es) && Done(es, first, xs) && Classify(x) == c
    ensures var fs := es + [CapEvent(c, |xs|)]; InPiece(c, |xs|, xs + [x], fs) && Done(fs, |xs|, xs + [x])
  {
    var e := CapEvent(c, |xs|);
    CapMeans(c, es, first, xs, x);
    DoneLater(es, first, xs, x);
    hide Done, Means, Classify, First, CapEvent;
    EventDone(es, e, first, xs + [x]);
    assert e in es + [e];
  }

  lemma {:induction false} PieceMeans(c: Class, es: seq<Event>, first: nat, xs: seq<real>, ys: seq<real>)
    requires first < |xs| <= first + 7200 && c != Normal && InPiece(c, first, xs, es)
    requires xs <= ys && (|xs| < |ys| ==> Classify(ys[|xs|]) != c) && PieceEvents(c, |xs| - first, |xs|) != []
    ensures var e := Event(first - 1, |xs|, Label(c));
            First(e) == first && PieceEvents(c, |xs| - first, |xs|) == [e] && Means(e, ys, es + [e])
  {
    var e := Event(first - 1, |xs|, Label(c));
    if first > 0 {
      Labels(c, xs[first - 1]);
    }
    if |xs| < |ys| {
      Labels(c, ys[|xs|]);
    }
    assert !IsLong(Label(c)) by {
      Labels(c, 0.0);
    }
    SameClass(c, first, xs);
    if f :| f in es && IsLong(f.description) && f.end == first {
      assert f in es + [e];
    }
    assert c == Sag <==> Label(c) == VoltageSag;
    hide Classify, InBand, Label;
  }

  lemma {:induction false} ShortPiece(c: Class, first: nat, xs: seq<real>, es: seq<Event>, ys: seq<real>)
    requires first < |xs| && InPiece(c, first, xs, es) && c != Normal && PieceEvents(c, |xs| - first, |xs|) == []
    requires xs <= ys && (|xs| < |ys| ==> Classify(ys[|xs|]) != c)
    ensures ShortSag(first, |xs|, ys)
  {
    SameClass(c, first, xs);
  }

  // The piece ends, with or without an event.
  lemma {:induction false} Ends(c: Class, es: seq<Event>, first: nat, xs: seq<real>, x: real)
    requires first <= |xs| <= first + 7200 && InPiece(c, first, xs, es) && Done(es, first, xs)
    requires c != Normal ==> first < |xs| && Classify(x) != c
    ensures Done(es + PieceEvents(c, |xs| - first, |xs|), |xs|, xs + [x])
  {
    var p := PieceEvents(c, |xs| - first, |xs|);
    DoneLater(es, first, xs, x);
    if p == [] {
      assert es + p == es;
      if c != Normal {
        ShortPiece(c, first, xs, es, xs + [x]);
      }
      hide Done, ShortSag, Classify, InPiece;
      NothingDone(es, first, xs + [x]);
    } else {
      PieceMeans(c, es, first, xs, xs + [x]);
      hide Done, Means, Classify, InPiece;
      EventDone(es, p[0], first, xs + [x]);
    }
  }

  // A new piece begins with the last sample, which the one before is not like.
  lemma {:induction false} Begins(c: Class, es: seq<Event>, xs: seq<real>, x: real)
    requires Classify(x) == c && Done(es, |xs|, xs + [x]) && (c == Normal || xs == [] || Classify(xs[|xs| - 1]) != c)
    ensures var n := if c == Normal then 0 else 1;
            InPiece(c, |xs| + 1 - n, xs + [x], es) && Done(es, |xs| + 1 - n, xs + [x])
  {
    if c == Normal {
      Bands(x);
    } else if xs != [] {
      Labels(c, xs[|xs| - 1]);
    }
    hide AllMean, Ordered, Covered, InShortSag, IsAbnormal, Classify, InBand;
  }

  lemma {:induction false} KeptOn(t: Trail, xs: seq<real>, x: real)
    requires Kept(t, xs) && (t.count == 0 <==> t.cls == Normal)
    requires xs == [] || t.cls == Classify(xs[|xs| - 1])
    ensures Kept(Advance(t, |xs|, Classify(x)), xs + [x])
  {
    hide InPiece, Done, Classify, PieceEvents;
    var c, first := Classify(x), |xs| - t.count;
    if c == t.cls && c != Normal {
      if t.count < OVER {
        GoesOn(c, t.settled, first, xs, x);
      } else {
        Capped(c, t.settled, first, xs, x);
      }
    } else {
      Ends(t.cls, t.settled, first, xs, x);
      Begins(c, t.settled + t.Pending(|xs|), xs, x);
    }
  }

  lemma {:induction false} KeptByOnePass(xs: seq<real>)
    ensures Kept(OnePass(xs), xs)
    decreases |xs|
  {
    if xs != [] {
      var ys, x := xs[..|xs| - 1], xs[|xs| - 1];
      assert xs == ys + [x];
      KeptByOnePass(ys);
      OnePassSnoc(ys, x);
      hide OnePass, Kept;
      KeptOn(OnePass(ys), ys, x);
    }
  }

  // ---- What the events mean ----

  lemma {:induction false} MeansBefore(e: Event, xs: seq<real>, es: seq<Event>)
    requires Means(e, xs + [1.0], es) && e.end <= |xs|
    ensures Means(e, xs, es)
  {
    var ys := xs + [1.0];
    assert forall i :: 0 <= i < |xs| ==> ys[i] == xs[i];
    assert !InBand(e.description, ys[|xs|]);
    hide InBand;
  }

  lemma {:induction false} CoveredBefore(i: nat, xs: seq<real>, es: seq<Event>)
    requires i < |xs| && InShortSag(i, xs + [1.0], |xs|)
    ensures InShortSag(i, xs, |xs|)
  {
    var lo: nat, hi: nat :| ShortSag(lo, hi, xs + [1.0]) && lo <= i < hi <= |xs|;
    assert forall k :: 0 <= k < |xs| ==> (xs + [1.0])[k] == xs[k];
    assert ShortSag(lo, hi, xs);
  }

  // Every event is of voltages in its band, and of nothing less than what is in the band there, cut after 7200 samples;
  // and every abnormal sample is in an event, unless the sag it is in is too short.
  lemma {:induction false} EventsInNumbers(xs: seq<real>)
    ensures var es := EventsOf(xs); AllMean(es, xs) && Ordered(es) && AllCovered(|xs|, es, xs, |xs|)
  {
    var es, t, ys := EventsOf(xs), OnePass(xs), xs + [1.0];
    KeptByOnePass(xs);
    Ends(t.cls, t.settled, |xs| - t.count, xs, 1.0);
    hide OnePass, EventsOf, Means, Ordered, Covered, InShortSag, IsAbnormal, InPiece;
    assert Done(es, |xs|, ys);
    forall e <- es
      ensures Means(e, xs, es)
    {
      MeansBefore(e, xs, es);
    }
    forall i: nat | i < |xs| && IsAbnormal(xs[i])
      ensures Covered(i, es) || InShortSag(i, xs, |xs|)
    {
      assert ys[i] == xs[i];
      if !Covered(i, es) {
        CoveredBefore(i, xs, es);
      }
    }
  }
}
