/** The closed vocabularies the shared package exports (`constants/enums.ts`). */
module Enums {
  import opened Wrappers

  const SESSION_TYPES: seq<string> := ["bouldering", "sport", "mixed", "training"]
  const ASCENT_STYLES: seq<string> := ["flash", "onsight", "redpoint", "repeat", "attempt"]
  const ASCENT_RESULTS: seq<string> := ["send", "fall", "project"]
  const WALL_ANGLES: seq<string> := ["slab", "vertical", "slight_overhang", "overhang", "roof"]
  const HOLD_TYPES: seq<string> :=
    ["crimps", "slopers", "pockets", "jugs", "pinches", "volumes", "underclings", "sidepulls", "gastons"]
  const BOARD_TYPES: seq<string> := ["kilter", "tension", "moon", "aurora"]
  const PROJECT_STATUSES: seq<string> := ["active", "sent", "abandoned"]
  const PROJECT_TYPES: seq<string> := ["boulder", "sport", "board"]

  /** The four grading systems; each owns one grade table. */
  datatype GradeSystem = Font | French | VScale | Yds

  /** The wire name of a grading system. */
  function GradeSystemName(g: GradeSystem): string {
    match g
    case Font => "font"
    case French => "french"
    case VScale => "v_scale"
    case Yds => "yds"
  }

  const GRADE_SYSTEMS: seq<string> := ["font", "french", "v_scale", "yds"]

  /** Reading a wire name back (`z.enum(GRADE_SYSTEMS)`): exactly the four names are accepted. */
  function ParseGradeSystem(s: string): (r: Option<GradeSystem>)
    ensures r.Some? <==> s in GRADE_SYSTEMS
    ensures r.Some? ==> GradeSystemName(r.value) == s
  {
    if s == "font" then Some(Font)
    else if s == "french" then Some(French)
    else if s == "v_scale" then Some(VScale)
    else if s == "yds" then Some(Yds)
    else None
  }

  /** Every system's name reads back as that system. */
  lemma GradeSystemNameRoundTrip(g: GradeSystem)
    ensures ParseGradeSystem(GradeSystemName(g)) == Some(g)
  {
  }
}
