/** The routine playback state machine of the app, on values: the fields the
    app keeps while a routine plays, the one-second tick, the control
    handlers, and what a run of ticks does.

    The routine is a fixed pose sequence for the whole run (`poses`, passed
    to every function). In the app the tick and the reset read the live
    `selected.poses`; the class in player.dfy snapshots the list at start,
    so a category switch in the sidebar during a run is not modelled. */
module Engine {
  import opened Routine

  /** The two values of the app's `phase`. */
  datatype Phase = PosePhase | TransitionPhase

  /** The playback fields of the app's component state. */
  datatype State = State(isPlaying: bool, currentIndex: nat, remaining: int, paused: bool, phase: Phase)

  /** Length of the rest between two poses, in ticks. */
  const TransitionSeconds: nat := 10

  /** The values the app's state hooks start from. */
  const Initial: State := State(false, 0, 0, false, PosePhase)

  predicate HasNext(poses: seq<Pose>, i: nat)
  {
    i + 1 < |poses|
  }

  /** The interval is installed exactly when the routine plays unpaused. */
  predicate Ticking(s: State)
  {
    s.isPlaying && !s.paused
  }

  /** The index stays inside the routine, a transition is only entered when a
      next pose exists, and an empty routine has never been started. */
  predicate Inv(poses: seq<Pose>, s: State)
  {
    && (|poses| == 0 ==> !s.isPlaying && s.currentIndex == 0)
    && (|poses| > 0 ==> s.currentIndex < |poses|)
    && (s.phase == TransitionPhase ==> HasNext(poses, s.currentIndex))
  }

  predicate AllPositive(poses: seq<Pose>)
  {
    forall j :: 0 <= j < |poses| ==> poses[j].duration >= 1
  }

  /** While playing, the countdown shows at least 1. */
  predicate CountsFromOne(s: State)
  {
    s.isPlaying ==> s.remaining >= 1
  }

  /** One firing of the interval callback, applied as one atomic update of all
      fields; no interval exists while `Ticking` is false. */
  function Step(poses: seq<Pose>, s: State): (r: State)
    // paused or stopped: the state is frozen
    ensures !Ticking(s) ==> r == s
    // above 1: count down by exactly one, nothing else changes
    ensures Ticking(s) && s.remaining > 1 ==> r == s.(remaining := s.remaining - 1)
    // a pose ends and a next one exists: a 10-second transition starts
    ensures Ticking(s) && s.remaining <= 1 && s.phase == PosePhase && HasNext(poses, s.currentIndex) ==>
      r == s.(phase := TransitionPhase, remaining := TransitionSeconds)
    // the last pose ends: the routine stops, with no transition
    ensures Ticking(s) && s.remaining <= 1 && s.phase == PosePhase && !HasNext(poses, s.currentIndex) ==>
      r == s.(isPlaying := false, remaining := 0)
    // a transition ends: the next pose starts with its own duration
    ensures Ticking(s) && s.remaining <= 1 && s.phase == TransitionPhase && HasNext(poses, s.currentIndex) ==>
      r == s.(currentIndex := s.currentIndex + 1, phase := PosePhase,
              remaining := poses[s.currentIndex + 1].duration)
    // the defensive branch: a transition with no next pose stops
    ensures Ticking(s) && s.remaining <= 1 && s.phase == TransitionPhase && !HasNext(poses, s.currentIndex) ==>
      r == s.(isPlaying := false, remaining := 0)
    // relations every tick keeps
    ensures r.isPlaying ==> s.isPlaying
    ensures r.paused == s.paused
    ensures r.currentIndex == s.currentIndex || r.currentIndex == s.currentIndex + 1
    ensures r.currentIndex != s.currentIndex ==>
      s.phase == TransitionPhase && r.phase == PosePhase && r.isPlaying
      && r.currentIndex < |poses| && r.remaining == poses[r.currentIndex].duration
    ensures s.phase == PosePhase && r.phase == TransitionPhase ==>
      r.remaining == TransitionSeconds && HasNext(poses, r.currentIndex) && r.isPlaying
    ensures Inv(poses, s) ==> Inv(poses, r)
    ensures AllPositive(poses) && CountsFromOne(s) ==> CountsFromOne(r)
  {
    if !Ticking(s) then s
    else if s.remaining > 1 then s.(remaining := s.remaining - 1)
    else match s.phase
      case PosePhase =>
        if HasNext(poses, s.currentIndex) then s.(phase := TransitionPhase, remaining := TransitionSeconds)
        else s.(isPlaying := false, remaining := 0)
      case TransitionPhase =>
        var next := s.currentIndex + 1;
        if next < |poses| then s.(currentIndex := next, phase := PosePhase, remaining := poses[next].duration)
        else s.(isPlaying := false, remaining := 0)
  }

  /** `n` ticks in a row. */
  function Steps(poses: seq<Pose>, s: State, n: nat): (r: State)
    ensures Inv(poses, s) ==> Inv(poses, r)
    ensures AllPositive(poses) && CountsFromOne(s) ==> CountsFromOne(r)
    ensures r.isPlaying ==> s.isPlaying
    ensures s.currentIndex <= r.currentIndex
    decreases n
  {
    if n == 0 then s else Steps(poses, Step(poses, s), n - 1)
  }

  /** `startRoutine`: an empty routine is refused and nothing changes;
      otherwise the first pose starts, playing and unpaused. */
  function StartRoutine(poses: seq<Pose>, s: State): (r: State)
    ensures |poses| == 0 ==> r == s
    ensures |poses| > 0 ==>
      && Ticking(r) && r.currentIndex == 0 && r.phase == PosePhase
      && r.remaining == poses[0].duration && Inv(poses, r)
    ensures |poses| > 0 && AllPositive(poses) ==> CountsFromOne(r)
  {
    if |poses| == 0 then s else State(true, 0, poses[0].duration, false, PosePhase)
  }

  /** `exitRoutine`: stops from any state; index and countdown are left as they were. */
  function ExitRoutine(s: State): (r: State)
    ensures !r.isPlaying && !r.paused && r.phase == PosePhase
    ensures r.currentIndex == s.currentIndex && r.remaining == s.remaining
    ensures !Ticking(r)
  {
    s.(isPlaying := false, paused := false, phase := PosePhase)
  }

  /** `resetRoutine` (the "Restart" button): back to the start of the first
      pose, unpaused, without touching `isPlaying`; `remaining` is 0 for an
      empty pose list. */
  function ResetRoutine(poses: seq<Pose>, s: State): (r: State)
    ensures r.isPlaying == s.isPlaying
    ensures |poses| > 0 ==> r == StartRoutine(poses, s).(isPlaying := s.isPlaying)
    ensures |poses| == 0 ==> r == State(s.isPlaying, 0, 0, false, PosePhase)
    ensures Inv(poses, s) ==> Inv(poses, r)
  {
    var first := if |poses| > 0 then poses[0].duration else 0;
    s.(currentIndex := 0, remaining := first, paused := false, phase := PosePhase)
  }

  /** `pauseResume`: flips `paused` and nothing else. */
  function PauseResume(s: State): (r: State)
    ensures r.paused != s.paused && r.(paused := s.paused) == s
  {
    s.(paused := !s.paused)
  }

  /** Exiting and pausing keep the invariant. */
  lemma ControlsKeepInv(poses: seq<Pose>, s: State)
    requires Inv(poses, s)
    ensures Inv(poses, ExitRoutine(s)) && Inv(poses, PauseResume(s))
  {
  }

  /** Running `a` then `b` ticks is running `a + b` ticks. */
  lemma {:induction false} StepsAdd(poses: seq<Pose>, s: State, a: nat, b: nat)
    ensures Steps(poses, s, a + b) == Steps(poses, Steps(poses, s, a), b)
    decreases a
  {
    if a > 0 {
      StepsAdd(poses, Step(poses, s), a - 1, b);
    }
  }

  /** No tick changes a paused or stopped state, however many fire. */
  lemma {:induction false} Frozen(poses: seq<Pose>, s: State, k: nat)
    requires !Ticking(s)
    ensures Steps(poses, s, k) == s
    decreases k
  {
    if k > 0 {
      Frozen(poses, Step(poses, s), k - 1);
    }
  }

  /** Time spent paused is not counted: pausing, letting any number of ticks
      pass, and resuming behaves as if the pause never happened. */
  lemma PauseDoesNotCount(poses: seq<Pose>, s: State, k: nat, m: nat)
    requires !s.paused
    ensures Steps(poses, PauseResume(s), k) == PauseResume(s)
    ensures Steps(poses, PauseResume(Steps(poses, PauseResume(s), k)), m) == Steps(poses, s, m)
  {
    Frozen(poses, PauseResume(s), k);
  }

  /** After an exit no tick changes anything. */
  lemma ExitStops(poses: seq<Pose>, s: State, k: nat)
    ensures Steps(poses, ExitRoutine(s), k) == ExitRoutine(s)
  {
    Frozen(poses, ExitRoutine(s), k);
  }

  /** The first `k` ticks of a countdown only lower `remaining`, while it stays above 0. */
  lemma {:induction false} CountDown(poses: seq<Pose>, s: State, k: nat)
    requires Ticking(s) && k < s.remaining
    ensures Steps(poses, s, k) == s.(remaining := s.remaining - k)
    decreases k
  {
    if k > 0 {
      CountDown(poses, Step(poses, s), k - 1);
    }
  }

  /** How many ticks a phase that starts with countdown `remaining` lasts:
      the tick at 1 (or below) ends it, so a countdown of at most 1 lasts one tick. */
  function HoldTicks(remaining: int): (n: nat)
    ensures n >= 1 && (remaining >= 1 ==> n == remaining)
  {
    if remaining > 1 then remaining else 1
  }

  /** The tick that ends a phase acts on the countdown at 1 (or on the last
      value, if it started at 1 or below). */
  lemma PhaseEnd(poses: seq<Pose>, s: State)
    requires Ticking(s)
    ensures Steps(poses, s, HoldTicks(s.remaining))
         == Step(poses, if s.remaining > 1 then s.(remaining := 1) else s)
  {
    var h := HoldTicks(s.remaining);
    StepsAdd(poses, s, h - 1, 1);
    if s.remaining > 1 {
      CountDown(poses, s, h - 1);
    }
  }

  /** Counting lemma for a pose: a pose whose countdown starts at `d >= 1`
      stays in the pose phase, at the same index, for exactly `d` ticks; the
      tick after that starts the transition when a next pose exists, and
      otherwise stops the routine with `remaining` 0. */
  lemma PoseHeld(poses: seq<Pose>, s: State)
    requires Ticking(s) && s.phase == PosePhase
    ensures forall k: nat :: k < HoldTicks(s.remaining) ==>
      Steps(poses, s, k) == s.(remaining := s.remaining - k)
    ensures Steps(poses, s, HoldTicks(s.remaining)) ==
      if HasNext(poses, s.currentIndex) then s.(phase := TransitionPhase, remaining := TransitionSeconds)
      else s.(isPlaying := false, remaining := 0)
  {
    forall k: nat | k < HoldTicks(s.remaining)
      ensures Steps(poses, s, k) == s.(remaining := s.remaining - k)
    {
      if k > 0 {
        CountDown(poses, s, k);
      }
    }
    PhaseEnd(poses, s);
  }

  /** Counting lemma for a transition: it lasts exactly 10 ticks, counting
      10, 9, ..., 1, and then the next pose starts with its own duration. */
  lemma TransitionHeld(poses: seq<Pose>, s: State)
    requires Ticking(s) && s.phase == TransitionPhase && s.remaining == TransitionSeconds
    requires HasNext(poses, s.currentIndex)
    ensures forall k: nat :: k < TransitionSeconds ==>
      Steps(poses, s, k) == s.(remaining := TransitionSeconds - k)
    ensures Steps(poses, s, TransitionSeconds) ==
      s.(currentIndex := s.currentIndex + 1, phase := PosePhase,
         remaining := poses[s.currentIndex + 1].duration)
  {
    forall k: nat | k < TransitionSeconds
      ensures Steps(poses, s, k) == s.(remaining := TransitionSeconds - k)
    {
      CountDown(poses, s, k);
    }
    PhaseEnd(poses, s);
  }

  /** The state in which pose `i` has just started. */
  function PoseStart(poses: seq<Pose>, i: nat): State
    requires i < |poses|
  {
    State(true, i, poses[i].duration, false, PosePhase)
  }

  /** The state a routine that ran to its end leaves behind. */
  function Finished(poses: seq<Pose>): State
    requires |poses| > 0
  {
    State(false, |poses| - 1, 0, false, PosePhase)
  }

  /** Ticks from the start of pose `i` to the end of the routine: each pose's
      hold plus a 10-tick transition before every following pose. */
  function TicksFrom(poses: seq<Pose>, i: nat): nat
    requires i < |poses|
    decreases |poses| - i
  {
    HoldTicks(poses[i].duration)
    + if HasNext(poses, i) then TransitionSeconds + TicksFrom(poses, i + 1) else 0
  }

  function TotalDuration(poses: seq<Pose>): int
  {
    if poses == [] then 0 else poses[0].duration + TotalDuration(poses[1..])
  }

  /** From the start of pose `i`, the routine plays for exactly
      `TicksFrom(poses, i)` ticks and then stops at the last pose. */
  lemma {:induction false} RunToEnd(poses: seq<Pose>, i: nat)
    requires i < |poses|
    ensures Steps(poses, PoseStart(poses, i), TicksFrom(poses, i)) == Finished(poses)
    ensures forall k: nat :: k < TicksFrom(poses, i) ==> Steps(poses, PoseStart(poses, i), k).isPlaying
    decreases |poses| - i
  {
    var s := PoseStart(poses, i);
    var h := HoldTicks(poses[i].duration);
    PoseHeld(poses, s);
    if HasNext(poses, i) {
      var t := Steps(poses, s, h);
      TransitionHeld(poses, t);
      RunToEnd(poses, i + 1);
      StepsAdd(poses, s, h, TransitionSeconds);
      assert Steps(poses, s, h + TransitionSeconds) == PoseStart(poses, i + 1);
      StepsAdd(poses, s, h + TransitionSeconds, TicksFrom(poses, i + 1));
      forall k: nat | k < TicksFrom(poses, i) ensures Steps(poses, s, k).isPlaying {
        if k < h {
        } else if k < h + TransitionSeconds {
          StepsAdd(poses, s, h, k - h);
        } else {
          StepsAdd(poses, s, h + TransitionSeconds, k - h - TransitionSeconds);
        }
      }
    }
  }

  /** With positive durations the tick count is the sum of the durations plus
      10 for every transition. */
  lemma {:induction false} TicksFromCount(poses: seq<Pose>, i: nat)
    requires i < |poses| && AllPositive(poses)
    ensures TicksFrom(poses, i) == TotalDuration(poses[i..]) + TransitionSeconds * (|poses| - i - 1)
    decreases |poses| - i
  {
    assert poses[i..][1..] == poses[i + 1..];
    if HasNext(poses, i) {
      TicksFromCount(poses, i + 1);
    } else {
      assert poses[i + 1..] == [];
    }
  }

  /** A started routine plays for exactly `TicksFrom(poses, 0)` ticks, which
      is the sum of the durations plus 10 per transition when they are
      positive, and then stops at the last pose; every earlier tick finds it
      playing. */
  lemma StartRunsToEnd(poses: seq<Pose>, s0: State)
    requires |poses| > 0
    ensures Steps(poses, StartRoutine(poses, s0), TicksFrom(poses, 0)) == Finished(poses)
    ensures forall k: nat :: k < TicksFrom(poses, 0) ==> Steps(poses, StartRoutine(poses, s0), k).isPlaying
    ensures AllPositive(poses) ==>
      TicksFrom(poses, 0) == TotalDuration(poses) + TransitionSeconds * (|poses| - 1)
  {
    assert StartRoutine(poses, s0) == PoseStart(poses, 0);
    RunToEnd(poses, 0);
    if AllPositive(poses) {
      TicksFromCount(poses, 0);
      assert poses[0..] == poses;
    }
  }

  /** While the last pose is held, no tick ever enters a transition. */
  lemma {:induction false} LastPoseStaysInPose(poses: seq<Pose>, s: State, k: nat)
    requires s.phase == PosePhase && !HasNext(poses, s.currentIndex)
    ensures Steps(poses, s, k).phase == PosePhase
    decreases k
  {
    if k > 0 {
      LastPoseStaysInPose(poses, Step(poses, s), k - 1);
    }
  }

  /** Two poses of 30 and 40 seconds: 30 ticks of holding, 10 of transition,
      40 of holding, and the routine ends after 80 ticks. */
  lemma TwoPoseScenario(a: Pose, b: Pose, s0: State)
    requires a.duration == 30 && b.duration == 40
    ensures Steps([a, b], StartRoutine([a, b], s0), 29) == State(true, 0, 1, false, PosePhase)
    ensures Steps([a, b], StartRoutine([a, b], s0), 30) == State(true, 0, TransitionSeconds, false, TransitionPhase)
    ensures Steps([a, b], StartRoutine([a, b], s0), 40) == State(true, 1, 40, false, PosePhase)
    ensures Steps([a, b], StartRoutine([a, b], s0), 79).isPlaying
    ensures Steps([a, b], StartRoutine([a, b], s0), 80) == State(false, 1, 0, false, PosePhase)
  {
    var poses := [a, b];
    var s := StartRoutine(poses, s0);
    PoseHeld(poses, s);
    var t := Steps(poses, s, 30);
    TransitionHeld(poses, t);
    StepsAdd(poses, s, 30, 10);
    assert TicksFrom(poses, 1) == 40;
    assert TicksFrom(poses, 0) == 80;
    StartRunsToEnd(poses, s0);
  }

  /** A single pose of 5 seconds: the routine ends after 5 ticks straight from
      the pose phase, and no transition is ever entered. */
  lemma SinglePoseScenario(a: Pose, s0: State)
    requires a.duration == 5
    ensures Steps([a], StartRoutine([a], s0), 4).isPlaying
    ensures Steps([a], StartRoutine([a], s0), 5) == State(false, 0, 0, false, PosePhase)
    ensures forall k: nat :: Steps([a], StartRoutine([a], s0), k).phase == PosePhase
  {
    var s := StartRoutine([a], s0);
    assert TicksFrom([a], 0) == 5;
    StartRunsToEnd([a], s0);
    forall k: nat ensures Steps([a], s, k).phase == PosePhase {
      LastPoseStaysInPose([a], s, k);
    }
  }
}
