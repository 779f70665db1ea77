/** The playback state of the app as an object whose fields the handlers and
    the tick update in place. Each method is proved against the function of
    the same handler in Engine, and keeps the Engine invariant. */
module Player {
  import opened Routine
  import opened Engine

  class Playback {
    /** The routine of the current run, a snapshot taken by `Start`: the
        source reads the live `selected.poses`, which the model keeps fixed
        for the duration of a run. */
    var poses: seq<Pose>
    var isPlaying: bool
    var currentIndex: nat
    var remaining: int
    var paused: bool
    var phase: Phase

    function Snapshot(): State
      reads this
    {
      State(isPlaying, currentIndex, remaining, paused, phase)
    }

    predicate Valid()
      reads this
    {
      Inv(poses, Snapshot())
    }

    constructor ()
      ensures Valid() && Snapshot() == Initial && poses == []
    {
      poses := [];
      isPlaying, currentIndex, remaining, paused, phase := false, 0, 0, false, PosePhase;
    }

    /** `startRoutine` with the selected category's poses. */
    method Start(selected: seq<Pose>)
      requires Valid()
      modifies this
      ensures Valid()
      ensures Snapshot() == StartRoutine(selected, old(Snapshot()))
      ensures poses == if |selected| == 0 then old(poses) else selected
    {
      if |selected| == 0 {
        return;
      }
      poses := selected;
      isPlaying := true;
      currentIndex := 0;
      remaining := selected[0].duration;
      paused := false;
      phase := PosePhase;
    }

    /** `exitRoutine`. */
    method Exit()
      requires Valid()
      modifies this
      ensures Valid() && poses == old(poses)
      ensures Snapshot() == ExitRoutine(old(Snapshot()))
    {
      isPlaying := false;
      paused := false;
      phase := PosePhase;
    }

    /** `resetRoutine`, the "Restart" button. */
    method Restart()
      requires Valid()
      modifies this
      ensures Valid() && poses == old(poses)
      ensures Snapshot() == ResetRoutine(poses, old(Snapshot()))
    {
      currentIndex := 0;
      remaining := if |poses| > 0 then poses[0].duration else 0;
      paused := false;
      phase := PosePhase;
    }

    /** `pauseResume`. */
    method TogglePause()
      requires Valid()
      modifies this
      ensures Valid() && poses == old(poses)
      ensures Snapshot() == PauseResume(old(Snapshot()))
    {
      paused := !paused;
    }

    /** One firing of the one-second interval. The interval exists only while
        the routine plays unpaused, so a call in any other state changes nothing.
        The tick is total: it also runs the source's defensive branch (a
        transition without a next pose), which no valid state reaches. */
    method Tick()
      modifies this
      ensures old(Valid()) ==> Valid()
      ensures poses == old(poses)
      ensures Snapshot() == Step(poses, old(Snapshot()))
    {
      if !isPlaying || paused {
        return;
      }
      if remaining > 1 {
        remaining := remaining - 1;
        return;
      }
      match phase
      case PosePhase =>
        var hasNext := currentIndex + 1 < |poses|;
        if hasNext {
          phase := TransitionPhase;
          remaining := TransitionSeconds;
          return;
        }
        isPlaying := false;
        remaining := 0;
      case TransitionPhase =>
        var nextIndex := currentIndex + 1;
        if nextIndex < |poses| {
          currentIndex := nextIndex;
          phase := PosePhase;
          remaining := poses[nextIndex].duration;
          return;
        }
        isPlaying := false;
        remaining := 0;
    }
  }
}
