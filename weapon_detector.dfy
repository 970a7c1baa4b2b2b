/**
 * The weapon check: the weapon model is run on the whole frame, whatever
 * the track, and the first box, if any, becomes a finding.
 */
module WeaponDetector {

  import opened Detection
  import opened VehicleTracker

  datatype WeaponFinding = WeaponFinding(weapon: bool, confidence: real)

  /** `check`: the weapon finding for a frame; the track argument is not read. */
  function Check(frame: Frame, track: Track, model: Frame -> ModelOutput): (r: Option<WeaponFinding>)
    ensures r.Some? <==> HasBoxes(model(frame))
    ensures r.Some? ==> r.value.weapon && r.value.confidence == FirstBox(model(frame)).conf
  {
    var res := model(frame);
    if !HasBoxes(res) then None
    else Some(WeaponFinding(true, FirstBox(res).conf))
  }

  /** The finding is a property of the frame it is given: two tracks checked on the same frame get the same one. */
  lemma SameFindingForEveryTrack(frame: Frame, t1: Track, t2: Track, model: Frame -> ModelOutput)
    ensures Check(frame, t1, model) == Check(frame, t2, model)
  {
  }
}
