/**
 * The event fuser: a helmet finding that says "no helmet" becomes a
 * helmet-violation event, any weapon finding becomes a weapon event, in
 * that order. The track and the fight finding are accepted and ignored.
 */
module EventManager {

  import opened Detection
  import opened VehicleTracker
  import HelmetDetector
  import WeaponDetector

  /**
   * The fight detector's result. Its module is not part of this model; the
   * pipeline only passes the value through to the fuser, which ignores it.
   */
  datatype FightFinding = FightFinding(fight: bool, confidence: real)

  datatype EventType = HelmetViolation | WeaponDetected {
    /** The event's "type" string. */
    function Name(): string {
      match this
      case HelmetViolation => "helmet_violation"
      case WeaponDetected => "weapon_detected"
    }
  }

  datatype Event = Event(kind: EventType, labelText: string, confidence: real, details: string, color: Bgr)

  /** The colour of every event: red, in blue-green-red order. */
  const Red: Bgr := Bgr(0, 0, 255)

  /** `fuse`: the events of one track in one frame (at most one of each type; see `FuseEvents`). */
  function Fuse(track: Track, helmet: Option<HelmetDetector.HelmetFinding>,
                weapon: Option<WeaponDetector.WeaponFinding>, fight: Option<FightFinding>): (events: seq<Event>)
    ensures |events| <= 2
  {
    var violation :=
      if helmet.Some? && !helmet.value.helmet
      then [Event(HelmetViolation, "NO HELMET", helmet.value.confidence, "Rider without helmet", Red)]
      else [];
    var armed :=
      if weapon.Some?
      then [Event(WeaponDetected, "WEAPON", weapon.value.confidence, "Weapon detected", Red)]
      else [];
    violation + armed
  }

  /**
   * A helmet-violation event comes exactly from a "no helmet" finding and a
   * weapon event exactly from a weapon finding, each carrying its finding's
   * confidence and fixed texts in red; the violation comes first.
   */
  lemma FuseEvents(track: Track, helmet: Option<HelmetDetector.HelmetFinding>,
                   weapon: Option<WeaponDetector.WeaponFinding>, fight: Option<FightFinding>)
    ensures var events := Fuse(track, helmet, weapon, fight);
            && ((exists e :: e in events && e.kind == HelmetViolation) <==> helmet.Some? && !helmet.value.helmet)
            && ((exists e :: e in events && e.kind == WeaponDetected) <==> weapon.Some?)
            && (forall e :: e in events && e.kind == HelmetViolation ==>
                  helmet.Some? && e == Event(HelmetViolation, "NO HELMET", helmet.value.confidence, "Rider without helmet", Red))
            && (forall e :: e in events && e.kind == WeaponDetected ==>
                  weapon.Some? && e == Event(WeaponDetected, "WEAPON", weapon.value.confidence, "Weapon detected", Red))
            && (|events| == 2 ==> events[0].kind == HelmetViolation && events[1].kind == WeaponDetected)
  {
  }

  /** The result depends on neither the track nor the fight finding. */
  lemma FuseIgnoresTrackAndFight(t1: Track, t2: Track, helmet: Option<HelmetDetector.HelmetFinding>,
                                 weapon: Option<WeaponDetector.WeaponFinding>, f1: Option<FightFinding>, f2: Option<FightFinding>)
    ensures Fuse(t1, helmet, weapon, f1) == Fuse(t2, helmet, weapon, f2)
  {
  }

  /** A rider with a helmet and a frame without a weapon give no event at all. */
  lemma HelmetWornNoWeaponIsQuiet(track: Track, confidence: real, fight: Option<FightFinding>)
    ensures Fuse(track, Some(HelmetDetector.HelmetFinding(true, confidence)), None, fight) == []
  {
  }

  /**
   * A weapon finding is reported whatever its `weapon` flag says: the fuser
   * tests only that a finding is present.
   */
  lemma WeaponFlagNotRead(track: Track, helmet: Option<HelmetDetector.HelmetFinding>, confidence: real,
                          fight: Option<FightFinding>)
    ensures Fuse(track, helmet, Some(WeaponDetector.WeaponFinding(false, confidence)), fight) ==
            Fuse(track, helmet, Some(WeaponDetector.WeaponFinding(true, confidence)), fight)
  {
  }
}
