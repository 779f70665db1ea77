/** The routine data the app edits before a run: categories ("parts") of
    poses, each pose with a hold duration in seconds, and the duration edit
    with its 5-second floor. */
module Routine {

  /** One pose of a category. The image of the source record is not modelled. */
  datatype Pose = Pose(id: string, name: string, duration: int)

  /** One body-part category with its ordered pose list. */
  datatype Part = Part(id: string, name: string, description: string, poses: seq<Pose>)

  /** The smallest duration an edit can leave on a pose. */
  const MinDuration: int := 5

  /** The floor `onChangeDuration` applies to the requested duration. */
  function Clamp(d: int): (r: int)
    ensures r >= MinDuration
    ensures d >= MinDuration ==> r == d
    ensures d < MinDuration ==> r == MinDuration
  {
    if d < MinDuration then MinDuration else d
  }

  /** The duration a pose card's "-" (delta -5) or "+" (delta 5) button
      requests: `Math.max(5, pose.duration + delta)`. */
  function ButtonTarget(p: Pose, delta: int): (r: int)
    ensures r >= MinDuration && r >= p.duration + delta
    ensures r == p.duration + delta || r == MinDuration
  {
    if p.duration + delta < MinDuration then MinDuration else p.duration + delta
  }

  /** The inner `poses.map`: every pose whose id matches gets duration `d`. */
  function SetDuration(ps: seq<Pose>, poseId: string, d: int): (r: seq<Pose>)
    ensures |r| == |ps|
    ensures forall j :: 0 <= j < |ps| ==>
      r[j] == if ps[j].id == poseId then ps[j].(duration := d) else ps[j]
  {
    if ps == [] then []
    else [if ps[0].id == poseId then ps[0].(duration := d) else ps[0]]
         + SetDuration(ps[1..], poseId, d)
  }

  /** `onChangeDuration`: clamps the requested duration to the floor and sets it
      on every pose with the given id, in every category; nothing else changes. */
  function ChangeDuration(data: seq<Part>, poseId: string, newDuration: int): (r: seq<Part>)
    ensures |r| == |data|
    ensures forall i :: 0 <= i < |data| ==>
      && r[i].id == data[i].id && r[i].name == data[i].name
      && r[i].description == data[i].description
      && |r[i].poses| == |data[i].poses|
    ensures forall i, j :: 0 <= i < |data| && 0 <= j < |data[i].poses| ==>
      r[i].poses[j] == if data[i].poses[j].id == poseId
                       then data[i].poses[j].(duration := Clamp(newDuration))
                       else data[i].poses[j]
  {
    if data == [] then []
    else [data[0].(poses := SetDuration(data[0].poses, poseId, Clamp(newDuration)))]
         + ChangeDuration(data[1..], poseId, newDuration)
  }

  /** Some category holds a pose with this id. */
  predicate HasPose(data: seq<Part>, poseId: string)
  {
    exists i, j :: 0 <= i < |data| && 0 <= j < |data[i].poses| && data[i].poses[j].id == poseId
  }

  /** Every pose of every category lasts at least `m` seconds. */
  predicate AllAtLeast(data: seq<Part>, m: int)
  {
    forall i, j :: 0 <= i < |data| && 0 <= j < |data[i].poses| ==> data[i].poses[j].duration >= m
  }

  /** Two part lists with the same shape whose poses agree are equal. */
  lemma {:induction false} SameParts(a: seq<Part>, b: seq<Part>)
    requires |a| == |b|
    requires forall i :: 0 <= i < |a| ==>
      a[i].id == b[i].id && a[i].name == b[i].name && a[i].description == b[i].description
      && |a[i].poses| == |b[i].poses|
    requires forall i, j :: 0 <= i < |a| && 0 <= j < |a[i].poses| ==> a[i].poses[j] == b[i].poses[j]
    ensures a == b
  {
    forall i | 0 <= i < |a| ensures a[i] == b[i] {
      assert a[i].poses == b[i].poses;
    }
  }

  /** An edit of an id that no pose carries changes nothing. */
  lemma ChangeDurationAbsent(data: seq<Part>, poseId: string, newDuration: int)
    requires !HasPose(data, poseId)
    ensures ChangeDuration(data, poseId, newDuration) == data
  {
    SameParts(ChangeDuration(data, poseId, newDuration), data);
  }

  /** Editing the same pose twice leaves only the second value. */
  lemma LastEditWins(data: seq<Part>, poseId: string, first: int, second: int)
    ensures ChangeDuration(ChangeDuration(data, poseId, first), poseId, second)
         == ChangeDuration(data, poseId, second)
  {
    SameParts(ChangeDuration(ChangeDuration(data, poseId, first), poseId, second),
              ChangeDuration(data, poseId, second));
  }

  /** Edits of two different poses do not interfere: their order is irrelevant. */
  lemma EditsCommute(data: seq<Part>, id1: string, d1: int, id2: string, d2: int)
    requires id1 != id2
    ensures ChangeDuration(ChangeDuration(data, id1, d1), id2, d2)
         == ChangeDuration(ChangeDuration(data, id2, d2), id1, d1)
  {
    SameParts(ChangeDuration(ChangeDuration(data, id1, d1), id2, d2),
              ChangeDuration(ChangeDuration(data, id2, d2), id1, d1));
  }

  /** A lower bound of at most the floor on all durations survives every edit,
      and the edited poses themselves end at or above the floor. */
  lemma EditKeepsFloor(data: seq<Part>, poseId: string, newDuration: int, m: int)
    requires m <= MinDuration && AllAtLeast(data, m)
    ensures AllAtLeast(ChangeDuration(data, poseId, newDuration), m)
  {
  }

  /** The card buttons never request a duration below the floor, so the
      second clamp in `onChangeDuration` keeps their value as it is; and "+"
      followed by "-" restores any duration at or above the floor. */
  lemma ButtonsRespectFloor(p: Pose, delta: int)
    ensures Clamp(ButtonTarget(p, delta)) == ButtonTarget(p, delta)
    ensures p.duration >= MinDuration ==>
      ButtonTarget(p.(duration := ButtonTarget(p, 5)), -5) == p.duration
  {
  }
}
