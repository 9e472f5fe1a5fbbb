/** Unwrapping of the six phase angles, sample after sample, with the state kept across seconds. */
module PhaseUnwrap {
  const CHANNELS := 6
  const SAMPLES_PER_SEC := 120

  function Whole(n: int): real {
    360.0 * n as real
  }

  // fmod(angle, 360): the sign is the one of the angle.
  function Fmod(angle: real): real {
    var turns := if angle >= 0.0 then (angle / 360.0).Floor else -(-angle / 360.0).Floor;
    angle - Whole(turns)
  }

  // unwr_base and unwr_tmp_old of one channel.
  datatype State = State(base: real, last: real)

  const INITIAL := State(0.0, 180.0)

  function Step(s: State, angle: real): State {
    var next := Fmod(angle) + s.base;
    if next - s.last > 180.0 then State(s.base - 360.0, next - 360.0)
    else if next - s.last < -180.0 then State(s.base + 360.0, next + 360.0)
    else State(s.base, next)
  }

  // The state after each sample.
  function States(s: State, angles: seq<real>): (r: seq<State>)
    ensures |r| == |angles|
    decreases |angles|
  {
    if angles == [] then []
    else var t := Step(s, angles[0]); [t] + States(t, angles[1..])
  }

  // The unwrapped angles.
  function Outputs(s: State, angles: seq<real>): (r: seq<real>)
    ensures |r| == |angles| && forall i :: 0 <= i < |r| ==> r[i] == States(s, angles)[i].last
  {
    var states := States(s, angles);
    seq(|angles|, i requires 0 <= i < |angles| => states[i].last)
  }

  // The state after the last sample.
  function Final(s: State, angles: seq<real>): State {
    if angles == [] then s else Step(Final(s, angles[..|angles| - 1]), angles[|angles| - 1])
  }

  lemma {:induction false} FinalIsLast(s: State, angles: seq<real>)
    requires angles != []
    ensures Final(s, angles) == States(s, angles)[|angles| - 1]
  {
    if |angles| > 1 {
      StatesSnoc(s, angles[..|angles| - 1], angles[|angles| - 1]);
      FinalIsLast(s, angles[..|angles| - 1]);
      assert angles == angles[..|angles| - 1] + [angles[|angles| - 1]];
    } else {
      assert angles[..0] == [];
    }
  }

  // The state is carried from one second to the next.
  lemma {:induction false} FinalAppend(s: State, a: seq<real>, b: seq<real>)
    ensures Final(s, a + b) == Final(Final(s, a), b)
    decreases |b|
  {
    if b == [] {
      assert a + b == a;
    } else {
      assert (a + b)[..|a + b| - 1] == a + b[..|b| - 1];
      FinalAppend(s, a, b[..|b| - 1]);
    }
  }

  lemma {:induction false} StatesSnoc(s: State, angles: seq<real>, a: real)
    requires angles != []
    ensures States(s, angles + [a]) == States(s, angles) + [Step(States(s, angles)[|angles| - 1], a)]
    decreases |angles|
  {
    assert (angles + [a])[1..] == angles[1..] + [a];
    if |angles| > 1 {
      StatesSnoc(Step(s, angles[0]), angles[1..], a);
    } else {
      assert angles[1..] + [a] == [a] && [a][1..] == [];
    }
  }

  // The states of two stretches, read one after the other.
  lemma {:induction false} StatesAppend(s: State, a: seq<real>, b: seq<real>)
    ensures States(s, a + b) == States(s, a) + States(Final(s, a), b)
    decreases |b|
  {
    if b == [] {
      assert a + b == a;
    } else {
      var c, x := b[..|b| - 1], b[|b| - 1];
      assert b == c + [x] && a + b == a + c + [x];
      StatesAppend(s, a, c);
      FinalAppend(s, a, c);
      StatesMore(s, a + c, x);
      StatesMore(Final(s, a), c, x);
    }
  }

  lemma {:induction false} StatesMore(s: State, angles: seq<real>, a: real)
    ensures States(s, angles + [a]) == States(s, angles) + [Step(Final(s, angles), a)]
    ensures Final(s, angles + [a]) == Step(Final(s, angles), a)
  {
    assert (angles + [a])[..|angles|] == angles;
    if angles == [] {
      assert angles + [a] == [a] && [a][1..] == [];
    } else {
      StatesSnoc(s, angles, a);
      FinalIsLast(s, angles);
    }
  }

  // ---- What the unwrapped angle is ----

  ghost predicate IsResidue(angle: real, phase: real) {
    exists n: int :: phase == angle + Whole(n)
  }

  // The true phase moves less than half a turn per sample, and the raw angles are its residues.
  ghost predicate Samples(angles: seq<real>, phases: seq<real>) {
    && |angles| == |phases|
    && (forall i :: 0 <= i < |angles| ==> IsResidue(angles[i], phases[i]))
    && (forall i :: 0 < i < |phases| ==> -180.0 < phases[i] - phases[i - 1] < 180.0)
  }

  // Successive angles, as fmod leaves them, differ by less than one and a half turns.
  predicate Close(angles: seq<real>, i: nat)
    requires 0 < i < |angles|
  {
    -540.0 < Fmod(angles[i]) - Fmod(angles[i - 1]) < 540.0
  }

  predicate AllClose(angles: seq<real>) {
    forall i :: 0 < i < |angles| ==> Close(angles, i)
  }

  // After a sample that fmod takes to `angle`: the base is a whole number of turns and the output lies that far above.
  ghost predicate Settled(s: State, angle: real) {
    s.last == angle + s.base && exists n: int :: s.base == Whole(n)
  }

  lemma {:induction false} FmodBounds(angle: real)
    ensures -360.0 < Fmod(angle) < 360.0
    ensures IsResidue(Fmod(angle), angle)
    ensures if angle >= 0.0 then Fmod(angle) >= 0.0 else Fmod(angle) <= 0.0
  {
    var turns := if angle >= 0.0 then (angle / 360.0).Floor else -(-angle / 360.0).Floor;
    assert angle == Fmod(angle) + Whole(turns);
  }

  lemma {:induction false} SameResidue(angle: real, phase: real)
    requires IsResidue(angle, phase)
    ensures IsResidue(Fmod(angle), phase)
  {
    FmodBounds(angle);
    var m: int :| phase == angle + Whole(m);
    var n: int :| angle == Fmod(angle) + Whole(n);
    assert Whole(m) + Whole(n) == Whole(m + n);
    assert phase == Fmod(angle) + Whole(m + n);
  }

  lemma {:induction false} OneTurn(n: int)
    ensures Whole(n + 1) == Whole(n) + 360.0 && Whole(n - 1) == Whole(n) - 360.0
  {
  }

  // One sample on: the output is the angle again, a whole number of turns away. It moves by at most half a turn
  // exactly when the angle moves by at most one and a half.
  lemma {:induction false} StepSettles(s: State, f: real, next: real)
    requires Settled(s, f) && -360.0 < f < 360.0
    ensures Settled(Step(s, next), Fmod(next))
    ensures -180.0 <= Step(s, next).last - s.last <= 180.0 <==> -540.0 <= Fmod(next) - f <= 540.0
  {
    var n: int :| s.base == Whole(n);
    OneTurn(n);
    FmodBounds(next);
    hide Fmod;
  }

  lemma {:induction false} FirstSettles(next: real)
    ensures Settled(Step(INITIAL, next), Fmod(next))
  {
    assert Whole(0) == 0.0 && Whole(1) == 360.0;
    FmodBounds(next);
    hide Fmod;
  }

  // The output follows the phase over one sample exactly when the angles are close.
  lemma {:induction false} StepFollowsIff(s: State, f: real, p: real, next: real, phase: real)
    requires Settled(s, f) && -360.0 < f < 360.0
    requires IsResidue(f, p) && IsResidue(next, phase) && -180.0 < phase - p < 180.0
    ensures Step(s, next).last - s.last == phase - p <==> -540.0 < Fmod(next) - f < 540.0
  {
    SameResidue(next, phase);
    FmodBounds(next);
    var m: int :| p == f + Whole(m);
    var n: int :| phase == Fmod(next) + Whole(n);
    assert Whole(n) - Whole(m) == Whole(n - m);
    hide Fmod;
    var turns := n - m;
    assert -900.0 < Whole(turns) < 900.0;
    assert -2 <= turns <= 2;
  }

  // Whatever the raw angles: the base is a whole number of turns, and an output moves by at most 180 exactly when
  // the angle, as fmod leaves it, moves by at most 540.
  lemma {:induction false} Bounded(angles: seq<real>, i: nat)
    requires i < |angles|
    ensures Settled(States(INITIAL, angles)[i], Fmod(angles[i]))
    ensures i > 0 ==>
              (-180.0 <= States(INITIAL, angles)[i].last - States(INITIAL, angles)[i - 1].last <= 180.0
               <==> -540.0 <= Fmod(angles[i]) - Fmod(angles[i - 1]) <= 540.0)
  {
    StatesOfPrefix(INITIAL, angles, i);
    hide Fmod;
    if i == 0 {
      FirstSettles(angles[0]);
    } else {
      Bounded(angles, i - 1);
      FmodBounds(angles[i - 1]);
      StepSettles(States(INITIAL, angles)[i - 1], Fmod(angles[i - 1]), angles[i]);
    }
  }

  lemma {:induction false} StatesOfPrefix(s: State, angles: seq<real>, i: nat)
    requires i < |angles|
    ensures States(s, angles)[i] == Step(if i == 0 then s else States(s, angles)[i - 1], angles[i])
    decreases i
  {
    if i > 0 {
      StatesOfPrefix(Step(s, angles[0]), angles[1..], i - 1);
    }
  }

  // A move by more than half a turn is corrected by one turn.
  function Corrected(move: real): real {
    if move > 180.0 then move - 360.0 else if move < -180.0 then move + 360.0 else move
  }

  // What the outputs are, whatever the angles: the first lies in the first turn, and each moves as the angle does, as
  // fmod leaves it, corrected by one turn.
  ghost predicate Traces(angles: seq<real>, outputs: seq<real>) {
    && |outputs| == |angles|
    && (angles != [] ==> 0.0 <= outputs[0] < 360.0 && IsResidue(angles[0], outputs[0]))
    && forall i :: 0 < i < |angles| ==>
         outputs[i] - outputs[i - 1] == Corrected(Fmod(angles[i]) - Fmod(angles[i - 1]))
  }

  lemma {:induction false} FirstOutput(angle: real)
    ensures 0.0 <= Step(INITIAL, angle).last < 360.0 && IsResidue(angle, Step(INITIAL, angle).last)
  {
    FmodBounds(angle);
    hide Fmod;
    var n: int :| angle == Fmod(angle) + Whole(n);
    var out := Step(INITIAL, angle).last;
    OneTurn(-n);
    assert Whole(-n) == -Whole(n);
    assert out == angle + Whole(-n) || out == angle + Whole(-n + 1);
  }

  lemma {:induction false} OutputsTrace(angles: seq<real>)
    ensures Traces(angles, Outputs(INITIAL, angles))
  {
    var states, out := States(INITIAL, angles), Outputs(INITIAL, angles);
    hide Fmod, States;
    if angles != [] {
      StatesOfPrefix(INITIAL, angles, 0);
      FirstOutput(angles[0]);
    }
    forall i | 0 < i < |angles|
      ensures out[i] - out[i - 1] == Corrected(Fmod(angles[i]) - Fmod(angles[i - 1]))
    {
      StatesOfPrefix(INITIAL, angles, i);
      Bounded(angles, i - 1);
    }
  }

  // How far the output after sample `i` is from the phase.
  function Gap(angles: seq<real>, phases: seq<real>, i: nat): real
    requires i < |angles| == |phases|
  {
    States(INITIAL, angles)[i].last - phases[i]
  }

  lemma {:induction false} GapKeptIff(angles: seq<real>, phases: seq<real>, i: nat)
    requires Samples(angles, phases) && 0 < i < |angles|
    ensures Gap(angles, phases, i) == Gap(angles, phases, i - 1) <==> Close(angles, i)
  {
    Bounded(angles, i - 1);
    StatesOfPrefix(INITIAL, angles, i);
    SameResidue(angles[i - 1], phases[i - 1]);
    FmodBounds(angles[i - 1]);
    hide Fmod, States, Step;
    StepFollowsIff(States(INITIAL, angles)[i - 1], Fmod(angles[i - 1]), phases[i - 1], angles[i], phases[i]);
  }

  lemma {:induction false} GapKept(angles: seq<real>, phases: seq<real>, i: nat)
    requires Samples(angles, phases) && i < |angles| && AllClose(angles)
    ensures Gap(angles, phases, i) == Gap(angles, phases, 0)
  {
    hide Close, Gap;
    if i > 0 {
      GapKeptIff(angles, phases, i);
      GapKept(angles, phases, i - 1);
    }
  }

  lemma {:induction false} FirstGap(angles: seq<real>, phases: seq<real>)
    requires Samples(angles, phases) && angles != []
    ensures exists n: int :: Gap(angles, phases, 0) == Whole(n)
  {
    Bounded(angles, 0);
    SameResidue(angles[0], phases[0]);
    hide Fmod;
    var s := States(INITIAL, angles)[0];
    var m: int :| phases[0] == Fmod(angles[0]) + Whole(m);
    var b: int :| s.base == Whole(b);
    assert Whole(b) - Whole(m) == Whole(b - m);
    assert Gap(angles, phases, 0) == Whole(b - m);
  }

  // Every output is the phase plus `n` turns.
  ghost predicate Offset(outputs: seq<real>, phases: seq<real>, n: int) {
    |outputs| == |phases| && forall i :: 0 <= i < |outputs| ==> outputs[i] == phases[i] + Whole(n)
  }

  // What comes out is the true phase up to one constant number of turns, exactly when all successive angles are close.
  lemma {:induction false} ReconstructsIff(angles: seq<real>, phases: seq<real>)
    requires Samples(angles, phases)
    ensures (exists n: int :: Offset(Outputs(INITIAL, angles), phases, n)) <==> AllClose(angles)
  {
    assert |angles| == |phases|;
    hide Samples, Fmod, Close;
    if n: int :| Offset(Outputs(INITIAL, angles), phases, n) {
      forall i: int | 0 < i < |angles|
        ensures Close(angles, i)
      {
        GapKeptIff(angles, phases, i);
      }
    }
    if angles == [] {
      assert Offset(Outputs(INITIAL, angles), phases, 0);
    } else if AllClose(angles) {
      FirstGap(angles, phases);
      var n: int :| Gap(angles, phases, 0) == Whole(n);
      forall i: int | 0 <= i < |angles|
        ensures Outputs(INITIAL, angles)[i] == phases[i] + Whole(n)
      {
        GapKept(angles, phases, i);
      }
      assert Offset(Outputs(INITIAL, angles), phases, n);
    }
  }

  // Raw angles in one window of a turn that begins at `lo`; [0, 360) and [-180, 180) are such windows.
  predicate InWindow(angle: real, lo: real) {
    -360.0 < lo <= 0.0 && lo <= angle < lo + 360.0
  }

  lemma {:induction false} WindowIsClose(angles: seq<real>, lo: real)
    requires forall a <- angles :: InWindow(a, lo)
    ensures AllClose(angles)
  {
    forall i | 0 < i < |angles|
      ensures Close(angles, i)
    {
      assert InWindow(angles[i], lo) && InWindow(angles[i - 1], lo);
    }
  }

  // Raw angles that are kept in one window always give the phase back.
  lemma {:induction false} Reconstructs(angles: seq<real>, phases: seq<real>, lo: real)
    requires Samples(angles, phases) && forall a <- angles :: InWindow(a, lo)
    ensures exists n: int :: Offset(Outputs(INITIAL, angles), phases, n)
  {
    WindowIsClose(angles, lo);
    ReconstructsIff(angles, phases);
  }

  // Angles of both signs are not such a window: fmod keeps the sign, and one correction cannot undo two turns.
  lemma {:induction false} TwoTurnsAreMissed()
    ensures var angles, phases := [-350.0, 350.0], [10.0, -10.0];
            Samples(angles, phases) && !exists n: int :: Offset(Outputs(INITIAL, angles), phases, n)
  {
    var angles, phases := [-350.0, 350.0], [10.0, -10.0];
    assert 10.0 == -350.0 + Whole(1) && -10.0 == 350.0 + Whole(-1);
    assert Samples(angles, phases);
    assert Fmod(-350.0) == -350.0 && Fmod(350.0) == 350.0;
    assert !Close(angles, 1);
    ReconstructsIff(angles, phases);
  }

  /** The fields of the archiver. */
  class Unwrapper {
    const base: array<real>
    const last: array<real>

    ghost predicate Valid()
      reads this
    {
      base.Length == last.Length == CHANNELS && base != last
    }

    ghost function At(c: nat): State
      requires Valid() && c < CHANNELS
      reads this, base, last
    {
      State(base[c], last[c])
    }

    constructor ()
      ensures Valid() && fresh(base) && fresh(last)
      ensures forall c: nat :: c < CHANNELS ==> At(c) == INITIAL
    {
      base := new real[CHANNELS](_ => 0.0);
      last := new real[CHANNELS](_ => 180.0);
    }

    // One sample of every channel; the result is what is passed on.
    method Sample(angles: seq<real>) returns (out: seq<real>)
      requires Valid() && |angles| == CHANNELS
      modifies base, last
      ensures |out| == CHANNELS
      ensures forall c: nat :: c < CHANNELS ==> At(c) == Step(old(At(c)), angles[c]) && out[c] == At(c).last
    {
      var next := new real[CHANNELS](i requires 0 <= i < CHANNELS reads this, base => Fmod(angles[i]) + base[i]);
      var c := 0;
      while c < CHANNELS
        invariant c <= CHANNELS
        invariant forall i: nat :: c <= i < CHANNELS ==> At(i) == old(At(i)) && next[i] == Fmod(angles[i]) + base[i]
        invariant forall i: nat :: i < c ==> At(i) == Step(old(At(i)), angles[i]) && next[i] == At(i).last
      {
        if next[c] - last[c] > 180.0 {
          base[c] := base[c] - 360.0;
          next[c] := next[c] - 360.0;
        } else if next[c] - last[c] < -180.0 {
          base[c] := base[c] + 360.0;
          next[c] := next[c] + 360.0;
        }
        last[c] := next[c];
        c := c + 1;
      }
      return next[..];
    }

    // One second.
    method Second(samples: seq<seq<real>>) returns (out: seq<seq<real>>)
      requires Valid() && |samples| == SAMPLES_PER_SEC && Wide(samples)
      modifies base, last
      ensures Wide(out) && |out| == |samples|
      ensures forall c: nat :: c < CHANNELS ==> Unwrapped(old(At(c)), At(c), c, samples, out)
    {
      hide Step, Unwrapped, Fmod;
      out := [];
      var i := 0;
      NothingUnwrapped();
      assert samples[..0] == [];
      while i < SAMPLES_PER_SEC
        invariant i <= SAMPLES_PER_SEC && Wide(out) && |out| == i
        invariant forall c: nat :: c < CHANNELS ==> Unwrapped(old(At(c)), At(c), c, samples[..i], out)
      {
        label before:
        var next := Sample(samples[i]);
        assert samples[..i + 1] == samples[..i] + [samples[i]];
        forall c: nat | c < CHANNELS
          ensures Unwrapped(old(At(c)), At(c), c, samples[..i + 1], out + [next])
        {
          SampleUnwrapped(old(At(c)), old@before(At(c)), c, samples[..i], out, samples[i], next);
        }
        out := out + [next];
        i := i + 1;
      }
      assert samples[..i] == samples;
    }
  }

  predicate Wide(samples: seq<seq<real>>) {
    forall a <- samples :: |a| == CHANNELS
  }

  function Channel(samples: seq<seq<real>>, c: nat): (r: seq<real>)
    requires c < CHANNELS && Wide(samples)
    ensures |r| == |samples| && forall i :: 0 <= i < |r| ==> r[i] == samples[i][c]
  {
    seq(|samples|, i requires 0 <= i < |samples| => samples[i][c])
  }

  // Channel `c` has gone from the state `s` to `t` through `samples`, and `out` is what came of it.
  ghost predicate Unwrapped(s: State, t: State, c: nat, samples: seq<seq<real>>, out: seq<seq<real>>)
    requires c < CHANNELS && Wide(samples) && Wide(out)
  {
    t == Final(s, Channel(samples, c)) && Channel(out, c) == Outputs(s, Channel(samples, c))
  }

  lemma {:induction false} NothingUnwrapped()
    ensures forall s: State, c: nat :: c < CHANNELS ==> Unwrapped(s, s, c, [], [])
  {
    forall s: State, c: nat | c < CHANNELS
      ensures Unwrapped(s, s, c, [], [])
    {
      assert Channel([], c) == [];
    }
  }

  lemma {:induction false} SampleUnwrapped(s: State, t: State, c: nat, samples: seq<seq<real>>, out: seq<seq<real>>,
                                           angles: seq<real>, next: seq<real>)
    requires c < CHANNELS && Wide(samples) && Wide(out) && Unwrapped(s, t, c, samples, out)
    requires |angles| == |next| == CHANNELS && next[c] == Step(t, angles[c]).last
    ensures Wide(samples + [angles]) && Wide(out + [next])
    ensures Unwrapped(s, Step(t, angles[c]), c, samples + [angles], out + [next])
  {
    assert Channel(samples + [angles], c) == Channel(samples, c) + [angles[c]];
    StatesMore(s, Channel(samples, c), angles[c]);
    hide Step, States, Final;
    assert Channel(out + [next], c) == Outputs(s, Channel(samples + [angles], c));
  }

  lemma {:induction false} ChannelAppend(a: seq<seq<real>>, b: seq<seq<real>>, c: nat)
    requires c < CHANNELS && Wide(a) && Wide(b)
    ensures Wide(a + b) && Channel(a + b, c) == Channel(a, c) + Channel(b, c)
  {
  }

  lemma {:induction false} OutputsAppend(s: State, a: seq<real>, b: seq<real>)
    ensures Outputs(s, a + b) == Outputs(s, a) + Outputs(Final(s, a), b)
  {
    StatesAppend(s, a, b);
    hide States, Final;
  }

  lemma {:induction false} SecondUnwrapped(s: State, t: State, u: State, c: nat, a: seq<seq<real>>,
                                           b: seq<seq<real>>, out: seq<seq<real>>, more: seq<seq<real>>)
    requires c < CHANNELS && Wide(a) && Wide(b) && Wide(out) && Wide(more)
    requires Unwrapped(s, t, c, a, out) && Unwrapped(t, u, c, b, more)
    ensures Wide(a + b) && Wide(out + more) && Unwrapped(s, u, c, a + b, out + more)
  {
    hide Wide, Channel, Outputs, Final;
    ChannelAppend(a, b, c);
    ChannelAppend(out, more, c);
    FinalAppend(s, Channel(a, c), Channel(b, c));
    OutputsAppend(s, Channel(a, c), Channel(b, c));
  }

  function Joined(a: seq<seq<real>>, b: seq<seq<real>>): (r: seq<seq<real>>)
    requires Wide(a) && Wide(b)
    ensures Wide(r) && r == a + b
  {
    a + b
  }

  // All samples, second after second.
  function AllSamples(seconds: seq<seq<seq<real>>>): (r: seq<seq<real>>)
    requires forall second <- seconds :: Wide(second)
    ensures Wide(r)
  {
    if seconds == [] then []
    else
      var last := seconds[|seconds| - 1];
      assert Wide(last);
      Joined(AllSamples(seconds[..|seconds| - 1]), last)
  }

  // Sample `k` of second `i`.
  lemma {:induction false} SampleOf(seconds: seq<seq<seq<real>>>, i: nat, k: nat)
    requires (forall second <- seconds :: Wide(second) && |second| == 120) && i < |seconds| && k < 120
    ensures |AllSamples(seconds)| == 120 * |seconds| && AllSamples(seconds)[120 * i + k] == seconds[i][k]
    decreases |seconds|
  {
    var n := |seconds| - 1;
    hide Wide;
    if n > 0 {
      SampleOf(seconds[..n], if i < n then i else 0, k);
    }
  }

  // The outputs are the unwrapped angles; whatever the true phase is, they follow it by a constant number of turns
  // exactly when the angles are close.
  ghost predicate Recovers(angles: seq<real>, outputs: seq<real>) {
    Traces(angles, outputs) && forall phases: seq<real> :: Samples(angles, phases) ==>
      ((exists n: int :: Offset(outputs, phases, n)) <==> AllClose(angles))
  }

  lemma {:induction false} UnwrappedRecovers(t: State, c: nat, samples: seq<seq<real>>, out: seq<seq<real>>)
    requires c < CHANNELS && Wide(samples) && Wide(out) && Unwrapped(INITIAL, t, c, samples, out)
    ensures Recovers(Channel(samples, c), Channel(out, c))
  {
    OutputsTrace(Channel(samples, c));
    hide Step, States, Final, Samples, AllClose, Traces;
    forall phases: seq<real> | Samples(Channel(samples, c), phases)
      ensures (exists n: int :: Offset(Channel(out, c), phases, n)) <==> AllClose(Channel(samples, c))
    {
      ReconstructsIff(Channel(samples, c), phases);
    }
  }

  // The whole run, across all seconds: on every channel the true phase is given back up to one constant number of
  // turns, exactly when successive angles are close over the whole run.
  method Run(seconds: seq<seq<seq<real>>>) returns (out: seq<seq<real>>)
    requires forall second <- seconds :: |second| == 120 && Wide(second)
    ensures Wide(out) && |out| == |AllSamples(seconds)|
    ensures forall c: nat :: c < 6 ==> Recovers(Channel(AllSamples(seconds), c), Channel(out, c))
  {
    hide Step, States, Final, Unwrapped, Recovers;
    var unwrapper := new Unwrapper();
    out := [];
    NothingUnwrapped();
    assert seconds[..0] == [];
    var i := 0;
    while i < |seconds|
      invariant i <= |seconds| && Wide(out) && |out| == |AllSamples(seconds[..i])|
      invariant unwrapper.Valid() && fresh(unwrapper.base) && fresh(unwrapper.last)
      invariant forall c: nat :: c < CHANNELS ==>
                  Unwrapped(INITIAL, unwrapper.At(c), c, AllSamples(seconds[..i]), out)
    {
      label before:
      var more := unwrapper.Second(seconds[i]);
      assert seconds[..i + 1][..i] == seconds[..i];
      forall c: nat | c < CHANNELS
        ensures Unwrapped(INITIAL, unwrapper.At(c), c, AllSamples(seconds[..i + 1]), out + more)
      {
        SecondUnwrapped(INITIAL, old@before(unwrapper.At(c)), unwrapper.At(c), c, AllSamples(seconds[..i]), seconds[i],
                        out, more);
      }
      out := out + more;
      i := i + 1;
    }
    assert seconds[..i] == seconds;
    forall c: nat | c < CHANNELS
      ensures Recovers(Channel(AllSamples(seconds), c), Channel(out, c))
    {
      UnwrappedRecovers(unwrapper.At(c), c, AllSamples(seconds), out);
    }
  }
}
