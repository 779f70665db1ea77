/** What the routine player screen derives from the playback state: the pose
    it shows, the heading, the subtitle and the info line. */
module Display {
  import opened Wrappers
  import opened Routine
  import opened Engine

  const TransitionHeading: string := "Transition"
  const FallbackHeading: string := "Pose"
  const TransitionSubtitle: string := "Take 10 seconds to switch poses"
  const HoldSubtitle: string := "Hold this pose"
  const FinishLine: string := "Get ready to finish strong."
  const LastPoseLine: string := "This is the last pose."

  /** JavaScript's `poses[i]`: `undefined` (None) outside the list. */
  function PoseAt(poses: seq<Pose>, i: int): Option<Pose>
  {
    if 0 <= i < |poses| then Some(poses[i]) else None
  }

  /** `displayPose`: in a transition the next pose, falling back to the
      current one; otherwise the current pose. */
  function DisplayPose(poses: seq<Pose>, currentIndex: nat, phase: Phase): (r: Option<Pose>)
    ensures phase == PosePhase ==> r == PoseAt(poses, currentIndex)
    ensures phase == TransitionPhase && HasNext(poses, currentIndex) ==> r == Some(poses[currentIndex + 1])
    ensures phase == TransitionPhase && !HasNext(poses, currentIndex) ==> r == PoseAt(poses, currentIndex)
  {
    var current := PoseAt(poses, currentIndex);
    var next := PoseAt(poses, currentIndex + 1);
    if phase == TransitionPhase then (if next.Some? then next else current) else current
  }

  /** The `<h2>` heading: "Transition", or the shown pose's name, or "Pose". */
  function Heading(poses: seq<Pose>, currentIndex: nat, phase: Phase): string
  {
    if phase == TransitionPhase then TransitionHeading
    else match DisplayPose(poses, currentIndex, phase)
      case Some(p) => p.name
      case None => FallbackHeading
  }

  function Subtitle(phase: Phase): string
  {
    if phase == TransitionPhase then TransitionSubtitle else HoldSubtitle
  }

  /** `${next.name} — ${next.duration}s`. */
  function NextLabel(p: Pose): string
  {
    p.name + " \U{2014} " + IntToString(p.duration) + "s"
  }

  /** `infoLine`: names the next pose with its duration when there is one. */
  function InfoLine(poses: seq<Pose>, currentIndex: nat, phase: Phase): (r: string)
    ensures (r == FinishLine || r == LastPoseLine) <==> !HasNext(poses, currentIndex)
    ensures !HasNext(poses, currentIndex) ==>
      r == (if phase == TransitionPhase then FinishLine else LastPoseLine)
    ensures HasNext(poses, currentIndex) ==>
      r == (if phase == TransitionPhase then "Up next: " else "Next: ") + NextLabel(poses[currentIndex + 1])
  {
    var next := PoseAt(poses, currentIndex + 1);
    if phase == TransitionPhase then
      (if next.Some? then
         var line := "Up next: " + NextLabel(next.value);
         assert line[0] == 'U' && FinishLine[0] == 'G' && LastPoseLine[0] == 'T';
         line
       else FinishLine)
    else
      (if next.Some? then "Next: " + NextLabel(next.value) else LastPoseLine)
  }

  /** Under the playback invariant the player shows the pose it is about:
      the current one while holding, the next one during a transition, whose
      fallback and "Get ready to finish strong." line are never reached. */
  lemma PlayerView(poses: seq<Pose>, s: State)
    requires Inv(poses, s) && s.isPlaying
    ensures s.phase == PosePhase ==>
      && DisplayPose(poses, s.currentIndex, s.phase) == Some(poses[s.currentIndex])
      && Heading(poses, s.currentIndex, s.phase) == poses[s.currentIndex].name
      && Subtitle(s.phase) == HoldSubtitle
    ensures s.phase == TransitionPhase ==>
      && DisplayPose(poses, s.currentIndex, s.phase) == Some(poses[s.currentIndex + 1])
      && Heading(poses, s.currentIndex, s.phase) == TransitionHeading
      && Subtitle(s.phase) == TransitionSubtitle
      && InfoLine(poses, s.currentIndex, s.phase) == "Up next: " + NextLabel(poses[s.currentIndex + 1])
    ensures InfoLine(poses, s.currentIndex, s.phase) != FinishLine
  {
  }

  /** Every state a started routine reaches shows a consistent player screen. */
  lemma {:induction false} ReachableView(poses: seq<Pose>, s0: State, k: nat)
    requires |poses| > 0
    ensures var s := Steps(poses, StartRoutine(poses, s0), k);
      InfoLine(poses, s.currentIndex, s.phase) != FinishLine
      && (s.phase == TransitionPhase ==>
            DisplayPose(poses, s.currentIndex, s.phase) == Some(poses[s.currentIndex + 1]))
  {
    var s := Steps(poses, StartRoutine(poses, s0), k);
    assert Inv(poses, s);
  }

  // Decimal rendering of integers, as in a template literal.

  function DigitChar(d: nat): (c: char)
    requires d < 10
    ensures '0' <= c <= '9' && (c as int) - ('0' as int) == d
  {
    "0123456789"[d]
  }

  /** The decimal digits of `n`, most significant first, without leading zeros. */
  function NatToString(n: nat): (r: string)
    ensures |r| >= 1
    ensures forall j :: 0 <= j < |r| ==> '0' <= r[j] <= '9'
    ensures r[0] == '0' ==> n == 0
    decreases n
  {
    if n < 10 then [DigitChar(n)] else NatToString(n / 10) + [DigitChar(n % 10)]
  }

  function IntToString(n: int): string
  {
    if n < 0 then "-" + NatToString(-n) else NatToString(n)
  }

  function DigitValue(c: char): nat
  {
    if '0' <= c <= '9' then ((c as int) - ('0' as int)) as nat else 0
  }

  /** Reads a string of decimal digits back as a number. */
  function ParseNat(s: string): nat
    decreases |s|
  {
    if s == [] then 0 else 10 * ParseNat(s[..|s| - 1]) + DigitValue(s[|s| - 1])
  }

  function ParseInt(s: string): int
  {
    if |s| > 0 && s[0] == '-' then 0 - (ParseNat(s[1..]) as int) else ParseNat(s)
  }

  lemma {:induction false} NatToStringRoundTrip(n: nat)
    ensures ParseNat(NatToString(n)) == n
    decreases n
  {
    var r := NatToString(n);
    if n >= 10 {
      NatToStringRoundTrip(n / 10);
      assert r[..|r| - 1] == NatToString(n / 10);
    }
  }

  /** The duration in an info line reads back as the pose's duration. */
  lemma IntToStringRoundTrip(n: int)
    ensures ParseInt(IntToString(n)) == n
  {
    if n < 0 {
      NatToStringRoundTrip(-n);
      assert IntToString(n)[1..] == NatToString(-n);
    } else {
      NatToStringRoundTrip(n);
    }
  }
}
