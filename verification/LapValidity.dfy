/**
  The sled's lap-validity latch: ten frames a second are folded into one flag
  for the lap in progress and one for the lap last completed.
*/
module LapValidity {

  /** One telemetry frame: the game's completed-lap counter and its flag of the instant. */
  datatype Frame = Frame(completed: int, valid: bool)

  /** What the sled does with the latch: fold a frame in, or reset it when a race is launched or killed. */
  datatype Event = Sample(frame: Frame) | Reset

  datatype LatchState = LatchState(current: bool, last: bool, count: int)

  const FRESH := LatchState(true, true, 0)

  function Fold(l: LatchState, e: Event): LatchState {
    match e
    case Reset => FRESH
    case Sample(f) =>
      if f.completed > l.count then LatchState(f.valid, l.current, f.completed)
      else if f.completed < l.count then LatchState(true, true, f.completed)
      else l.(current := l.current && f.valid)
  }

  function Run(es: seq<Event>): LatchState {
    if es == [] then FRESH else Fold(Run(es[..|es| - 1]), es[|es| - 1])
  }

  class LapLatch {
    var currentLapValid: bool
    var lastLapValid: bool
    var lastCompletedLaps: int

    ghost function State(): LatchState
      reads this
    {
      LatchState(currentLapValid, lastLapValid, lastCompletedLaps)
    }

    constructor ()
      ensures State() == FRESH
    {
      currentLapValid, lastLapValid, lastCompletedLaps := true, true, 0;
    }

    method ResetLapState()
      modifies this
      ensures State() == FRESH
    {
      currentLapValid := true;
      lastLapValid := true;
      lastCompletedLaps := 0;
    }

    /** Folds one frame and reports the two flags with it. */
    method GetData(f: Frame) returns (isLapValid: bool, lastValid: bool)
      modifies this
      ensures State() == Fold(old(State()), Sample(f))
      ensures isLapValid == State().current && lastValid == State().last
    {
      if f.completed > lastCompletedLaps {
        lastLapValid := currentLapValid;
        lastCompletedLaps := f.completed;
        currentLapValid := f.valid;
      } else if f.completed < lastCompletedLaps {
        lastCompletedLaps := f.completed;
        currentLapValid := true;
        lastLapValid := true;
      } else {
        if !f.valid {
          currentLapValid := false;
        }
      }
      return currentLapValid, lastLapValid;
    }
  }

  // ----- laps, read off the sequence of events without folding

  /** The counter before event i: the previous frame's, or 0 after a reset and at the start. */
  function CountBefore(es: seq<Event>, i: nat): int
    requires i <= |es|
  {
    if i == 0 || es[i - 1].Reset? then 0 else es[i - 1].frame.completed
  }

  predicate Rises(es: seq<Event>, i: nat)
    requires i < |es|
  {
    es[i].Sample? && es[i].frame.completed > CountBefore(es, i)
  }

  /** A reset, or a frame whose counter fell. */
  predicate Breaks(es: seq<Event>, i: nat)
    requires i < |es|
  {
    es[i].Reset? || es[i].frame.completed < CountBefore(es, i)
  }

  predicate Steady(es: seq<Event>, i: nat)
    requires i < |es|
  {
    !Rises(es, i) && !Breaks(es, i)
  }

  /**
    Events s .. n-1 are one lap so far: it starts at a rise, after a break or at
    the beginning, and nothing interrupts it.
  */
  ghost predicate LapFrom(es: seq<Event>, s: nat, n: nat)
    requires n <= |es|
  {
    && s <= n
    && (s == 0 || Breaks(es, s - 1) || (s < n && Rises(es, s)))
    && forall i :: s <= i < n ==> Steady(es, i) || (i == s && Rises(es, i))
  }

  /** Every frame of s .. n-1 was valid. */
  ghost predicate AllValid(es: seq<Event>, s: nat, n: nat)
    requires s <= n <= |es|
  {
    forall i :: s <= i < n && es[i].Sample? ==> es[i].frame.valid
  }

  /** The counter last rose at event r, and neither fell nor was reset since. */
  ghost predicate LastRise(es: seq<Event>, r: nat) {
    r < |es| && Rises(es, r) && forall i :: r < i < |es| ==> Steady(es, i)
  }

  ghost predicate NoRise(es: seq<Event>) {
    forall r :: !LastRise(es, r)
  }

  lemma {:induction false} CountTracks(es: seq<Event>)
    ensures Run(es).count == CountBefore(es, |es|)
  {
    if es != [] {
      CountTracks(es[..|es| - 1]);
    }
  }

  lemma PrefixKinds(es: seq<Event>, n: nat)
    requires n <= |es|
    ensures forall i :: 0 <= i < n ==> Rises(es[..n], i) == Rises(es, i)
    ensures forall i :: 0 <= i < n ==> Breaks(es[..n], i) == Breaks(es, i)
    ensures forall i :: 0 <= i < n ==> Steady(es[..n], i) == Steady(es, i)
  {
    forall i | 0 <= i < n ensures CountBefore(es[..n], i) == CountBefore(es, i) {}
  }

  /** The flag of the lap in progress is the conjunction of its frames' flags. */
  lemma {:induction false} CurrentIsConjunction(es: seq<Event>, s: nat)
    requires LapFrom(es, s, |es|)
    ensures Run(es).current <==> AllValid(es, s, |es|)
  {
    if es != [] {
      var n := |es| - 1;
      var init := es[..n];
      CountTracks(init);
      PrefixKinds(es, n);
      if s <= n && Steady(es, n) {
        assert LapFrom(init, s, n);
        CurrentIsConjunction(init, s);
        assert AllValid(init, s, n) <==> AllValid(es, s, n);
      }
    }
  }

  /** Every history has a lap in progress. */
  lemma {:induction false} LapInProgress(es: seq<Event>) returns (s: nat)
    ensures LapFrom(es, s, |es|)
  {
    if es == [] {
      s := 0;
    } else {
      var n := |es| - 1;
      if Rises(es, n) {
        s := n;
      } else if Breaks(es, n) {
        s := n + 1;
      } else {
        s := LapInProgress(es[..n]);
        PrefixKinds(es, n);
      }
    }
  }

  /**
    The flag of the completed lap is the conjunction over the frames of the lap
    that ended when the counter last rose; the frame of the rise belongs to the
    next lap, and a frame whose counter fell belongs to none.
  */
  lemma {:induction false} LastIsConjunction(es: seq<Event>, r: nat, s: nat)
    requires LastRise(es, r) && LapFrom(es, s, r)
    ensures Run(es).last <==> AllValid(es, s, r)
  {
    var n := |es| - 1;
    var init := es[..n];
    CountTracks(init);
    PrefixKinds(es, n);
    if r == n {
      assert LapFrom(init, s, n);
      CurrentIsConjunction(init, s);
      assert AllValid(init, s, n) <==> AllValid(es, s, n);
    } else {
      assert Steady(es, n);
      assert LastRise(init, r) && LapFrom(init, s, r);
      LastIsConjunction(init, r, s);
      assert AllValid(init, s, r) <==> AllValid(es, s, r);
    }
  }

  /** With no completed lap since the last break, the flag reads valid. */
  lemma {:induction false} LastWithoutRise(es: seq<Event>)
    requires NoRise(es)
    ensures Run(es).last
  {
    if es != [] {
      var n := |es| - 1;
      var init := es[..n];
      CountTracks(init);
      assert !LastRise(es, n);
      if Steady(es, n) {
        PrefixKinds(es, n);
        forall r: nat | LastRise(init, r) ensures LastRise(es, r) {}
        LastWithoutRise(init);
      }
    }
  }

  /** What a lap reported by the latch after these events was, frame by frame. */
  ghost predicate ReportedFlag(es: seq<Event>, flag: bool) {
    && (forall r, s :: LastRise(es, r) && LapFrom(es, s, r) ==> (flag <==> AllValid(es, s, r)))
    && (NoRise(es) ==> flag)
  }

  lemma LatchReports(es: seq<Event>)
    ensures ReportedFlag(es, Run(es).last)
  {
    forall r, s | LastRise(es, r) && LapFrom(es, s, r) ensures Run(es).last <==> AllValid(es, s, r) {
      LastIsConjunction(es, r, s);
    }
    if NoRise(es) {
      LastWithoutRise(es);
    }
  }

  /** The report determines the flag: the completed lap always has a start. */
  lemma ReportUnique(es: seq<Event>, flag: bool)
    requires ReportedFlag(es, flag)
    ensures flag == Run(es).last
  {
    if r: nat :| LastRise(es, r) {
      var s := LapInProgress(es[..r]);
      PrefixKinds(es, r);
      assert LapFrom(es, s, r);
      LastIsConjunction(es, r, s);
    } else {
      LastWithoutRise(es);
    }
  }

  // ----- reports with nothing behind them

  /**
    The counter's last change was a rise, and the event before that rise was a
    frame of a lap: it neither fell nor was reset.
  */
  predicate RoseOverLap(es: seq<Event>) {
    es != [] &&
    var n := |es| - 1;
    if Rises(es, n) then n > 0 && !Breaks(es, n - 1) else !Breaks(es, n) && RoseOverLap(es[..n])
  }

  lemma {:induction false} RoseOverLapIff(es: seq<Event>)
    ensures RoseOverLap(es) <==> exists r: nat :: LastRise(es, r) && r > 0 && !Breaks(es, r - 1)
  {
    if es != [] {
      var n := |es| - 1;
      var init := es[..n];
      RoseOverLapIff(init);
      PrefixKinds(es, n);
      if Rises(es, n) {
        assert LastRise(es, n);
        OneLastRise(es, n);
      } else if Steady(es, n) {
        if r: nat :| LastRise(init, r) && r > 0 && !Breaks(init, r - 1) {
          assert LastRise(es, r) && !Breaks(es, r - 1);
        }
        if r: nat :| LastRise(es, r) && r > 0 && !Breaks(es, r - 1) {
          assert LastRise(init, r) && !Breaks(init, r - 1);
        }
      }
    }
  }

  /** The flag is that of a lap with at least one frame that ended when the counter last rose. */
  ghost predicate OfCompletedLap(es: seq<Event>, flag: bool) {
    exists r: nat, s: nat ::
      LastRise(es, r) && s < r && LapFrom(es, s, r) && es[s].Sample? && (flag <==> AllValid(es, s, r))
  }

  /** A lap in progress has a frame exactly when the last event neither fell nor was a reset. */
  lemma LapWithFrames(es: seq<Event>) returns (s: nat)
    requires es != [] && !Breaks(es, |es| - 1)
    ensures LapFrom(es, s, |es|) && s < |es|
  {
    var n := |es| - 1;
    if Rises(es, n) {
      s := n;
    } else {
      s := LapInProgress(es[..n]);
      PrefixKinds(es, n);
    }
  }

  /** A report describes a completed lap exactly when the counter rose last and over a lap; otherwise it reads valid. */
  lemma ReportedLapIff(es: seq<Event>, flag: bool)
    requires ReportedFlag(es, flag)
    ensures OfCompletedLap(es, flag) <==> RoseOverLap(es)
    ensures !RoseOverLap(es) ==> flag
  {
    RoseOverLapIff(es);
    if r: nat, s: nat :|
      LastRise(es, r) && s < r && LapFrom(es, s, r) && es[s].Sample? && (flag <==> AllValid(es, s, r)) {
      assert Steady(es, r - 1) || Rises(es, r - 1);
    }
    if r: nat :| LastRise(es, r) {
      PrefixKinds(es, r);
      if r > 0 && !Breaks(es, r - 1) {
        var s := LapWithFrames(es[..r]);
        assert LapFrom(es, s, r) && (Steady(es, s) || Rises(es, s));
        OneLastRise(es, r);
      } else {
        assert LapFrom(es, r, r) && AllValid(es, r, r);
        OneLastRise(es, r);
      }
    }
  }

  lemma OneLastRise(es: seq<Event>, r: nat)
    requires LastRise(es, r)
    ensures forall q: nat :: LastRise(es, q) ==> q == r
  {
    forall q: nat | LastRise(es, q) ensures q == r {
      assert q < r ==> Steady(es, r);
      assert r < q ==> Steady(es, q);
    }
  }
}
