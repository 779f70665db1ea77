# Yoga routine player: a Dafny model of the playback state machine

The app lets a user pick a body-part category and adjust each pose's hold
time. It then runs a guided routine. A one-second tick counts down the
current pose and inserts a fixed 10-second transition before every following
pose. After the last pose the routine stops. The user can pause, resume,
restart or exit at any time.

This project models that core of `src/App.jsx`:

- `routine.dfy` (module `Routine`): the pose and category records. Also the
  duration edit (`onChangeDuration`) with its 5-second floor, and the value a
  pose card's +/- buttons request (`PoseCard.change`). Both are pure
  functions, as in the source.
- `engine.dfy` (module `Engine`): the playback state as a value, and the
  tick as a total function `Step` on it. The handlers `startRoutine`,
  `exitRoutine`, `resetRoutine` and `pauseResume` are functions too.
  `Steps` is `n` ticks in a row. The lemmas here count ticks per phase and
  per routine, and freeze the state under pause and exit.
- `player.dfy` (module `Player`): class `Playback` holds the same fields the
  app keeps in component state. `Tick` and the handler methods update those
  fields in place. Each method is proved to produce exactly the new state the
  matching `Engine` function gives, and to keep the invariant.
- `display.dfy` (module `Display`): what `RoutinePlayer` derives from the
  state: the shown pose, the heading, the subtitle and the info line. Also
  the decimal rendering of the duration in the info line.
- `wrappers.dfy` (module `Wrappers`): `Option`. It stands for JavaScript's
  `undefined` when the code reads `poses[currentIndex + 1]` past the end of
  the list.

Modelling decisions:

- A tick is one atomic update of every field. In the source, the
  `setRemaining` updater also calls `setPhase`, `setIsPlaying` and
  `setCurrentIndex`. The interval re-subscribes whenever `phase` or
  `currentIndex` changes, so every tick sees the current values.
- No interval exists unless the routine is playing and unpaused (the guard at
  line 361). `Step` returns such a state unchanged.
- The routine is fixed for the duration of a run. `Playback.Start` keeps a
  snapshot of the selected poses, and `Tick` and `Restart` read that
  snapshot. The source reads the live `selected.poses` in both places.
- The `return 0` at line 394 handles a phase that is neither value. It
  cannot happen with a two-value `Phase` datatype.
- `Pose.duration` and `remaining` are unbounded integers. The code never
  does arithmetic that could overflow a JavaScript number here.

Behaviour of the code that the model keeps:

- An empty pose list makes `startRoutine` return without any change and
  without raising an error. `StartRoutine` returns the state unchanged.
- The duration edit sets the new value on every pose with the given id, in
  every category.
- `resetRoutine` does not set `isPlaying`; it leaves it as it was.
- The tick takes the phase-ending branch whenever `remaining <= 1`. A phase
  whose countdown starts at 1 or below therefore lasts exactly one tick
  (`HoldTicks`).
- The defensive branch for a transition with no next pose stops the routine
  and leaves `phase` at the transition value.

## Model

| member | source | states |
|---|---|---|
| `Routine.Clamp` | src/App.jsx:324 | the result is at least 5, equals the request when it is 5 or more, and is 5 otherwise |
| `Routine.ButtonTarget` | src/App.jsx:171-173 | the requested duration is the larger of 5 and duration plus delta: at least both, and equal to one of them |
| `Routine.SetDuration` | src/App.jsx:328-330 | same length; a pose with the matching id gets the new duration with id and name unchanged; every other pose is identical |
| `Routine.ChangeDuration` | src/App.jsx:323-334 | every category keeps its id, name, description and pose count; a matching pose gets the clamped duration; every other pose is unchanged |
| `Routine.ChangeDurationAbsent` | src/App.jsx:326-331 | editing an id that no pose carries leaves the data equal to the input |
| `Routine.LastEditWins` | src/App.jsx:323-331 | two edits of the same pose give the same data as the second edit alone |
| `Routine.EditsCommute` | src/App.jsx:326-331 | edits of two different pose ids give the same data in either order |
| `Routine.EditKeepsFloor` | src/App.jsx:324-331 | a lower bound of at most 5 on every duration still holds after any edit |
| `Routine.ButtonsRespectFloor` | src/App.jsx:171-173 | the second clamp in onChangeDuration never changes a button's value; "+" then "-" restores a duration of 5 or more |
| `Engine.Step` | src/App.jsx:360-396 | frozen unless playing and unpaused; above 1 it counts down by exactly one and changes nothing else; a pose ending with a next pose starts a 10-tick transition; the last pose ending stops with remaining 0 and no transition; a transition ending loads the next pose's duration; the defensive branch stops; the index moves by at most one; playback never restarts by itself; the invariant and the countdown floor of 1 are kept |
| `Engine.Steps` | src/App.jsx:363-396 | any number of ticks keeps the invariant and the floor of 1, never moves the index backwards, and never sets isPlaying back to true |
| `Engine.StartRoutine` | src/App.jsx:336-343 | an empty routine leaves the state unchanged; otherwise the result is playing and unpaused at index 0 in the pose phase, with the first duration, and satisfies the invariant |
| `Engine.ExitRoutine` | src/App.jsx:345-349 | from any state: not playing, unpaused, pose phase, with index and countdown kept, so no tick can apply |
| `Engine.ResetRoutine` | src/App.jsx:351-356 | the start state of the first pose, with isPlaying as it was; remaining is 0 for an empty list; the invariant is kept |
| `Engine.PauseResume` | src/App.jsx:358 | flips paused and changes nothing else |
| `Engine.HoldTicks` | src/App.jsx:365-367 | a phase lasts at least one tick, and exactly its countdown when that is 1 or more |
| `Engine.Frozen` | src/App.jsx:361 | a paused or stopped state is unchanged by any number of ticks |
| `Engine.PauseDoesNotCount` | src/App.jsx:358-361 | ticks during a pause change nothing; pause, any ticks, then resume behaves like no pause |
| `Engine.ControlsKeepInv` | src/App.jsx:345-358 | exiting and toggling pause both keep the invariant: index in range, transition only with a next pose |
| `Engine.ExitStops` | src/App.jsx:345-361 | after an exit, no number of ticks changes the state |
| `Engine.CountDown` | src/App.jsx:365-367 | while the countdown stays above 0, k ticks lower remaining by exactly k and change nothing else |
| `Engine.PhaseEnd` | src/App.jsx:364-395 | the tick that ends a phase is the tick taken with the countdown at 1 |
| `Engine.PoseHeld` | src/App.jsx:365-378 | a pose with duration d of 1 or more stays d ticks at the same index in the pose phase; the next tick starts a 10-tick transition if a next pose exists, and otherwise stops with remaining 0 |
| `Engine.TransitionHeld` | src/App.jsx:372-388 | a transition counts 10 down to 1 over exactly 10 ticks, and then the next pose starts with its own duration |
| `Engine.RunToEnd` | src/App.jsx:363-395 | from the start of pose i, the routine plays through every tick before TicksFrom(i), and then stops at the last pose with remaining 0 |
| `Engine.TicksFromCount` | src/App.jsx:365-388 | with positive durations, the tick count is the sum of the remaining durations plus 10 per transition |
| `Engine.StartRunsToEnd` | src/App.jsx:336-395 | a started routine plays exactly sum of durations plus 10 times (poses - 1) ticks, then stops |
| `Engine.LastPoseStaysInPose` | src/App.jsx:369-378 | while the last pose is held, no tick ever enters the transition phase |
| `Engine.TwoPoseScenario` | src/App.jsx:363-395 | poses of 30 and 40 seconds: remaining 1 after 29 ticks, the transition at 30, the second pose at 40, still playing at 79, stopped at 80 |
| `Engine.SinglePoseScenario` | src/App.jsx:369-378 | one 5-second pose: playing after 4 ticks, stopped after 5, never in the transition phase |
| `Player.Playback.constructor` | src/App.jsx:315-319 | the initial field values: not playing, index 0, remaining 0, unpaused, pose phase |
| `Player.Playback.Start` | src/App.jsx:336-343 | the new state is StartRoutine of the old one; the poses are snapshotted unless the list is empty; the invariant is kept |
| `Player.Playback.Exit` | src/App.jsx:345-349 | the new state is ExitRoutine of the old one; the invariant is kept |
| `Player.Playback.Restart` | src/App.jsx:351-356 | the new state is ResetRoutine of the old one; the invariant is kept |
| `Player.Playback.TogglePause` | src/App.jsx:358 | the new state is PauseResume of the old one; the invariant is kept |
| `Player.Playback.Tick` | src/App.jsx:360-399 | the new state is Step of the old one; the routine is unchanged; the invariant is kept |
| `Display.DisplayPose` | src/App.jsx:253-256 | the current pose in the pose phase; the next pose during a transition when one exists, and otherwise the current one |
| `Display.InfoLine` | src/App.jsx:260-266 | the line is one of the two no-next-pose texts exactly when there is no next pose, "Get ready to finish strong." in a transition and "This is the last pose." while holding; otherwise it names the next pose and its duration, with the prefix set by the phase |
| `Display.PlayerView` | src/App.jsx:253-274 | under the invariant, while playing: the held pose is shown with its name under the subtitle "Hold this pose"; during a transition the next pose is shown under the "Transition" heading and the subtitle "Take 10 seconds to switch poses", with the "Up next" info line; "Get ready to finish strong." never appears |
| `Display.ReachableView` | src/App.jsx:253-266 | in every state a started routine reaches, the transition shows the next pose and the fallback line never appears |
| `Display.NatToString` | src/App.jsx:262-265 | the rendering of a duration is a nonempty string of decimal digits with no leading zero |
| `Display.IntToStringRoundTrip` | src/App.jsx:262-265 | the duration printed in the info line reads back as the pose's duration |

## Left out

- React plumbing: `useState`, `useEffect`, `setInterval` and `clearInterval`. Ticks are explicit calls. Real-time scheduling is not modelled: drift, and the partial second lost when the interval re-subscribes after a pause or phase change.
- Rendering, styles, image imports and image selection (`imageSrc`, lines 267-306). These are pure UI.
- The `img` field of a pose, for the same reason.
- `SAMPLE_DATA`: static data. The scenario lemmas use poses of the same shape instead.
- Category selection (`Sidebar`, `selectedId`, the `find` with fallback to `data[0]`). `Playback.Start` receives the selected poses, and the rest of the model uses that snapshot (see above).
- A category switch in the sidebar during a run can change the list that the tick and reset read. This could leave `currentIndex` out of range. The snapshot excludes it, so the model does not capture it.
- The `?.` and `??` fallbacks for a pose record without a `name`. Every pose here has a name.
- The build configuration (`vite.config.js`) holds no logic.
