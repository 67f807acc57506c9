/**
 * The grade tables and the lookups over them
 * (`packages/shared/src/constants/grades.ts`).
 */
module Grades {
  import opened Wrappers
  import opened Enums
  import opened Seqs

  /** One row of a grade table. */
  datatype GradeDefinition = GradeDefinition(grade: string, system: GradeSystem, numeric: int, band: string, sortOrder: int)

  const FONT_GRADES: seq<GradeDefinition> := [
    GradeDefinition("3",   Font, 300, "3", 0),
    GradeDefinition("4",   Font, 400, "4", 1),
    GradeDefinition("4+",  Font, 450, "4", 2),
    GradeDefinition("5",   Font, 500, "5", 3),
    GradeDefinition("5+",  Font, 550, "5", 4),
    GradeDefinition("6A",  Font, 600, "6", 5),
    GradeDefinition("6A+", Font, 617, "6", 6),
    GradeDefinition("6B",  Font, 633, "6", 7),
    GradeDefinition("6B+", Font, 650, "6", 8),
    GradeDefinition("6C",  Font, 667, "6", 9),
    GradeDefinition("6C+", Font, 683, "6", 10),
    GradeDefinition("7A",  Font, 700, "7", 11),
    GradeDefinition("7A+", Font, 717, "7", 12),
    GradeDefinition("7B",  Font, 733, "7", 13),
    GradeDefinition("7B+", Font, 750, "7", 14),
    GradeDefinition("7C",  Font, 767, "7", 15),
    GradeDefinition("7C+", Font, 783, "7", 16),
    GradeDefinition("8A",  Font, 800, "8", 17),
    GradeDefinition("8A+", Font, 817, "8", 18),
    GradeDefinition("8B",  Font, 833, "8", 19),
    GradeDefinition("8B+", Font, 850, "8", 20),
    GradeDefinition("8C",  Font, 867, "8", 21),
    GradeDefinition("8C+", Font, 883, "8", 22),
    GradeDefinition("9A",  Font, 900, "9", 23)
  ]

  const FRENCH_GRADES: seq<GradeDefinition> := [
    GradeDefinition("4a",  French, 400, "4", 0),
    GradeDefinition("4b",  French, 433, "4", 1),
    GradeDefinition("4c",  French, 467, "4", 2),
    GradeDefinition("5a",  French, 500, "5", 3),
    GradeDefinition("5b",  French, 533, "5", 4),
    GradeDefinition("5c",  French, 567, "5", 5),
    GradeDefinition("6a",  French, 600, "6", 6),
    GradeDefinition("6a+", French, 617, "6", 7),
    GradeDefinition("6b",  French, 633, "6", 8),
    GradeDefinition("6b+", French, 650, "6", 9),
    GradeDefinition("6c",  French, 667, "6", 10),
    GradeDefinition("6c+", French, 683, "6", 11),
    GradeDefinition("7a",  French, 700, "7", 12),
    GradeDefinition("7a+", French, 717, "7", 13),
    GradeDefinition("7b",  French, 733, "7", 14),
    GradeDefinition("7b+", French, 750, "7", 15),
    GradeDefinition("7c",  French, 767, "7", 16),
    GradeDefinition("7c+", French, 783, "7", 17),
    GradeDefinition("8a",  French, 800, "8", 18),
    GradeDefinition("8a+", French, 817, "8", 19),
    GradeDefinition("8b",  French, 833, "8", 20),
    GradeDefinition("8b+", French, 850, "8", 21),
    GradeDefinition("8c",  French, 867, "8", 22),
    GradeDefinition("8c+", French, 883, "8", 23),
    GradeDefinition("9a",  French, 900, "9", 24),
    GradeDefinition("9a+", French, 917, "9", 25),
    GradeDefinition("9b",  French, 933, "9", 26),
    GradeDefinition("9b+", French, 950, "9", 27)
  ]

  const V_SCALE_GRADES: seq<GradeDefinition> := [
    GradeDefinition("VB",  VScale, 300, "V0", 0),
    GradeDefinition("V0",  VScale, 400, "V0", 1),
    GradeDefinition("V1",  VScale, 500, "V1", 2),
    GradeDefinition("V2",  VScale, 550, "V2", 3),
    GradeDefinition("V3",  VScale, 600, "V3", 4),
    GradeDefinition("V4",  VScale, 650, "V4", 5),
    GradeDefinition("V5",  VScale, 700, "V5", 6),
    GradeDefinition("V6",  VScale, 733, "V6", 7),
    GradeDefinition("V7",  VScale, 767, "V7", 8),
    GradeDefinition("V8",  VScale, 800, "V8", 9),
    GradeDefinition("V9",  VScale, 833, "V9", 10),
    GradeDefinition("V10", VScale, 850, "V10", 11),
    GradeDefinition("V11", VScale, 867, "V11", 12),
    GradeDefinition("V12", VScale, 883, "V12", 13),
    GradeDefinition("V13", VScale, 900, "V13", 14),
    GradeDefinition("V14", VScale, 917, "V14", 15),
    GradeDefinition("V15", VScale, 933, "V15", 16),
    GradeDefinition("V16", VScale, 950, "V16", 17),
    GradeDefinition("V17", VScale, 967, "V17", 18)
  ]

  const YDS_GRADES: seq<GradeDefinition> := [
    GradeDefinition("5.5",   Yds, 400, "5.5", 0),
    GradeDefinition("5.6",   Yds, 433, "5.6", 1),
    GradeDefinition("5.7",   Yds, 467, "5.7", 2),
    GradeDefinition("5.8",   Yds, 500, "5.8", 3),
    GradeDefinition("5.9",   Yds, 533, "5.9", 4),
    GradeDefinition("5.10a", Yds, 567, "5.10", 5),
    GradeDefinition("5.10b", Yds, 583, "5.10", 6),
    GradeDefinition("5.10c", Yds, 600, "5.10", 7),
    GradeDefinition("5.10d", Yds, 617, "5.10", 8),
    GradeDefinition("5.11a", Yds, 633, "5.11", 9),
    GradeDefinition("5.11b", Yds, 650, "5.11", 10),
    GradeDefinition("5.11c", Yds, 667, "5.11", 11),
    GradeDefinition("5.11d", Yds, 683, "5.11", 12),
    GradeDefinition("5.12a", Yds, 700, "5.12", 13),
    GradeDefinition("5.12b", Yds, 717, "5.12", 14),
    GradeDefinition("5.12c", Yds, 733, "5.12", 15),
    GradeDefinition("5.12d", Yds, 750, "5.12", 16),
    GradeDefinition("5.13a", Yds, 767, "5.13", 17),
    GradeDefinition("5.13b", Yds, 783, "5.13", 18),
    GradeDefinition("5.13c", Yds, 800, "5.13", 19),
    GradeDefinition("5.13d", Yds, 817, "5.13", 20),
    GradeDefinition("5.14a", Yds, 833, "5.14", 21),
    GradeDefinition("5.14b", Yds, 850, "5.14", 22),
    GradeDefinition("5.14c", Yds, 867, "5.14", 23),
    GradeDefinition("5.14d", Yds, 883, "5.14", 24),
    GradeDefinition("5.15a", Yds, 900, "5.15", 25),
    GradeDefinition("5.15b", Yds, 917, "5.15", 26),
    GradeDefinition("5.15c", Yds, 933, "5.15", 27),
    GradeDefinition("5.15d", Yds, 950, "5.15", 28)
  ]

  /** `ALL_GRADES[system]` (`getGradesForSystem`). */
  function GradesFor(system: GradeSystem): seq<GradeDefinition> {
    match system
    case Font => FONT_GRADES
    case French => FRENCH_GRADES
    case VScale => V_SCALE_GRADES
    case Yds => YDS_GRADES
  }

  // ---------------------------------------------------------------- table shape

  /** Each row's numeric is below the next row's. */
  predicate AdjacentIncreasing(t: seq<GradeDefinition>) {
    forall i | 0 <= i < |t| - 1 :: t[i].numeric < t[i + 1].numeric
  }

  /** The numerics strictly increase along the table. */
  predicate StrictlyIncreasing(t: seq<GradeDefinition>) {
    forall i, j | 0 <= i < j < |t| :: t[i].numeric < t[j].numeric
  }

  /** Every row belongs to `system` and its `sortOrder` is its position. */
  predicate Numbered(t: seq<GradeDefinition>, system: GradeSystem) {
    forall i | 0 <= i < |t| :: t[i].sortOrder == i && t[i].system == system
  }

  /** Along an increasing table, numerics are bounded by the first and last rows and follow position. */
  lemma NumericsBetween(t: seq<GradeDefinition>, i: nat, j: nat)
    requires StrictlyIncreasing(t) && i <= j < |t|
    ensures t[0].numeric <= t[i].numeric <= t[j].numeric <= t[|t| - 1].numeric
  {
  }

  /** A well-formed table for `system`: rows of that system, increasing, `sortOrder` = position. */
  predicate WellFormed(t: seq<GradeDefinition>, system: GradeSystem) {
    StrictlyIncreasing(t) && Numbered(t, system)
  }

  lemma {:induction false} AdjacentToStrict(t: seq<GradeDefinition>)
    requires AdjacentIncreasing(t)
    ensures StrictlyIncreasing(t)
    decreases |t|
  {
    if |t| > 1 {
      AdjacentToStrict(t[1..]);
      forall j | 1 <= j < |t| ensures t[0].numeric < t[j].numeric {
        if j > 1 {
          assert t[1].numeric < t[j].numeric by { assert t[1..][0] == t[1] && t[1..][j - 1] == t[j]; }
        }
      }
      forall i, j | 0 <= i < j < |t| ensures t[i].numeric < t[j].numeric {
        if i > 0 { assert t[1..][i - 1] == t[i] && t[1..][j - 1] == t[j]; }
      }
    }
  }

  lemma FontAdjacent()
    ensures AdjacentIncreasing(FONT_GRADES)
  {
  }

  lemma FontIncreasing()
    ensures StrictlyIncreasing(FONT_GRADES)
  {
    FontAdjacent();
    AdjacentToStrict(FONT_GRADES);
  }

  lemma FontNumbered()
    ensures Numbered(FONT_GRADES, Font)
  {
  }

  lemma FontWellFormed()
    ensures WellFormed(FONT_GRADES, Font)
  {
    FontIncreasing();
    FontNumbered();
  }

  lemma FrenchAdjacent()
    ensures AdjacentIncreasing(FRENCH_GRADES)
  {
  }

  lemma FrenchIncreasing()
    ensures StrictlyIncreasing(FRENCH_GRADES)
  {
    FrenchAdjacent();
    AdjacentToStrict(FRENCH_GRADES);
  }

  lemma FrenchNumbered()
    ensures Numbered(FRENCH_GRADES, French)
  {
  }

  lemma FrenchWellFormed()
    ensures WellFormed(FRENCH_GRADES, French)
  {
    FrenchIncreasing();
    FrenchNumbered();
  }

  lemma VScaleAdjacent()
    ensures AdjacentIncreasing(V_SCALE_GRADES)
  {
  }

  lemma VScaleIncreasing()
    ensures StrictlyIncreasing(V_SCALE_GRADES)
  {
    VScaleAdjacent();
    AdjacentToStrict(V_SCALE_GRADES);
  }

  lemma VScaleNumbered()
    ensures Numbered(V_SCALE_GRADES, VScale)
  {
  }

  lemma VScaleWellFormed()
    ensures WellFormed(V_SCALE_GRADES, VScale)
  {
    VScaleIncreasing();
    VScaleNumbered();
  }

  lemma YdsAdjacent()
    ensures AdjacentIncreasing(YDS_GRADES)
  {
  }

  lemma YdsIncreasing()
    ensures StrictlyIncreasing(YDS_GRADES)
  {
    YdsAdjacent();
    AdjacentToStrict(YDS_GRADES);
  }

  lemma YdsNumbered()
    ensures Numbered(YDS_GRADES, Yds)
  {
  }

  lemma YdsWellFormed()
    ensures WellFormed(YDS_GRADES, Yds)
  {
    YdsIncreasing();
    YdsNumbered();
  }

  /** All four shipped tables are well formed: increasing, and `sortOrder` equals position. */
  lemma TablesWellFormed(system: GradeSystem)
    ensures WellFormed(GradesFor(system), system)
  {
    match system
    case Font => FontWellFormed();
    case French => FrenchWellFormed();
    case VScale => VScaleWellFormed();
    case Yds => YdsWellFormed();
  }

  // ---------------------------------------------------------------- lookups

  /** The predicate "this row has grade label `grade`". */
  function GradeIs(grade: string): GradeDefinition -> bool {
    (g: GradeDefinition) => g.grade == grade
  }

  /** The numeric of the first row of `t` labelled `grade`. */
  function NumericIn(t: seq<GradeDefinition>, grade: string): (r: Option<int>)
    ensures r.None? <==> forall g | g in t :: g.grade != grade
    ensures r.Some? ==> exists i | 0 <= i < |t| :: t[i].grade == grade && t[i].numeric == r.value
  {
    match Find(t, GradeIs(grade))
    case None => None
    case Some(g) =>
      assert exists i | 0 <= i < |t| :: t[i] == g;
      Some(g.numeric)
  }

  /** The labels of `t` are pairwise different. */
  predicate LabelsDistinct(t: seq<GradeDefinition>) {
    forall i, j | 0 <= i < j < |t| :: t[i].grade != t[j].grade
  }

  /** In a table with distinct labels, a row's label leads to that row's numeric. */
  lemma NumericAtRow(t: seq<GradeDefinition>, i: nat)
    requires LabelsDistinct(t) && i < |t|
    ensures NumericIn(t, t[i].grade) == Some(t[i].numeric)
  {
    var j :| 0 <= j < |t| && t[j].grade == t[i].grade && t[j].numeric == NumericIn(t, t[i].grade).value;
    assert i == j;
  }

  /** No V-scale label is listed twice. */
  lemma VScaleLabelsDistinct()
    ensures LabelsDistinct(V_SCALE_GRADES)
  {
    VScaleLabelsDistinctFrom(0, 5);
    VScaleLabelsDistinctFrom(5, 10);
    VScaleLabelsDistinctFrom(10, 19);
  }

  /** The V-scale labels at positions `lo` to `hi` differ from every later label. */
  lemma VScaleLabelsDistinctFrom(lo: nat, hi: nat)
    requires lo <= hi <= |V_SCALE_GRADES| && hi - lo <= 9
    ensures forall i, j | lo <= i < hi && i < j < |V_SCALE_GRADES| :: V_SCALE_GRADES[i].grade != V_SCALE_GRADES[j].grade
  {
  }

  /** The V scale runs from 300 to 967, strictly increasing. */
  lemma VScaleEnds()
    ensures |V_SCALE_GRADES| == 19
    ensures V_SCALE_GRADES[0].numeric == 300 && V_SCALE_GRADES[18].numeric == 967
    ensures StrictlyIncreasing(V_SCALE_GRADES)
  {
    VScaleWellFormed();
  }

  /** `gradeToNumeric`: the numeric of the row with that label, `None` (null) for a label not in the system. */
  function GradeToNumeric(grade: string, system: GradeSystem): Option<int> {
    NumericIn(GradesFor(system), grade)
  }

  /**
   * The loop of `numericToGrade`: keep the row with the greatest numeric
   * not above `n`, replacing the kept row only on a strictly greater numeric.
   */
  function ClosestFrom(t: seq<GradeDefinition>, n: int, closest: Option<GradeDefinition>): Option<GradeDefinition>
    decreases |t|
  {
    if |t| == 0 then closest
    else
      var g := t[0];
      var c := if g.numeric <= n && (closest.None? || g.numeric > closest.value.numeric) then Some(g) else closest;
      ClosestFrom(t[1..], n, c)
  }

  /** The row `numericToGrade` settles on. */
  function NumericToGradeRow(n: int, system: GradeSystem): Option<GradeDefinition> {
    ClosestFrom(GradesFor(system), n, None)
  }

  /** `numericToGrade`: the label of the closest row at or below `n`, `None` (null) when none is. */
  function NumericToGrade(n: int, system: GradeSystem): Option<string> {
    match NumericToGradeRow(n, system)
    case None => None
    case Some(g) => Some(g.grade)
  }

  /** The row `ClosestFrom` keeps is the greatest at or below `n`, and exists iff some row is at or below `n`. */
  lemma {:induction false} ClosestIsGreatestAtOrBelow(t: seq<GradeDefinition>, n: int, closest: Option<GradeDefinition>)
    requires closest.Some? ==> closest.value.numeric <= n
    ensures var r := ClosestFrom(t, n, closest);
      && (r.None? <==> closest.None? && forall g | g in t :: g.numeric > n)
      && (r.Some? ==> (r.value in t || r == closest) && r.value.numeric <= n)
      && (r.Some? ==> forall g | g in t && g.numeric <= n :: g.numeric <= r.value.numeric)
      && (r.Some? && closest.Some? ==> closest.value.numeric <= r.value.numeric)
    decreases |t|
  {
    if |t| > 0 {
      var g := t[0];
      var c := if g.numeric <= n && (closest.None? || g.numeric > closest.value.numeric) then Some(g) else closest;
      ClosestIsGreatestAtOrBelow(t[1..], n, c);
      assert forall x | x in t :: x == g || x in t[1..];
    }
  }

  /** In a strictly increasing table, a row is fixed by its numeric. */
  lemma UniqueNumeric(t: seq<GradeDefinition>, i: nat, g: GradeDefinition)
    requires StrictlyIncreasing(t) && i < |t| && g in t && g.numeric == t[i].numeric
    ensures g == t[i]
  {
    var j :| 0 <= j < |t| && t[j] == g;
  }

  /** Over a strictly increasing table, a row's numeric leads back to that row. */
  lemma ClosestOfOwnNumeric(t: seq<GradeDefinition>, i: nat)
    requires StrictlyIncreasing(t) && i < |t|
    ensures ClosestFrom(t, t[i].numeric, None) == Some(t[i])
  {
    ClosestIsGreatestAtOrBelow(t, t[i].numeric, None);
    var r := ClosestFrom(t, t[i].numeric, None).value;
    UniqueNumeric(t, i, r);
  }

  /** Over a strictly increasing table, the kept row's position grows with `n`. */
  lemma ClosestMonotone(t: seq<GradeDefinition>, n1: int, n2: int)
    requires StrictlyIncreasing(t) && n1 <= n2
    requires ClosestFrom(t, n1, None).Some?
    ensures ClosestFrom(t, n2, None).Some?
    ensures ClosestFrom(t, n1, None).value in t && ClosestFrom(t, n2, None).value in t
    ensures IndexOf(t, ClosestFrom(t, n1, None).value) <= IndexOf(t, ClosestFrom(t, n2, None).value)
  {
    ClosestIsGreatestAtOrBelow(t, n1, None);
    ClosestIsGreatestAtOrBelow(t, n2, None);
    var r1 := ClosestFrom(t, n1, None).value;
    var r2 := ClosestFrom(t, n2, None).value;
  }

  /** Round trip: every label of a system maps to its numeric and back to itself. */
  lemma GradeNumericRoundTrip(grade: string, system: GradeSystem)
    requires GradeToNumeric(grade, system).Some?
    ensures NumericToGrade(GradeToNumeric(grade, system).value, system) == Some(grade)
  {
    var t := GradesFor(system);
    TablesWellFormed(system);
    var i :| 0 <= i < |t| && t[i].grade == grade && t[i].numeric == GradeToNumeric(grade, system).value;
    ClosestOfOwnNumeric(t, i);
  }

  /**
   * `numericToGrade` is monotone over any well-formed table (every system's
   * table is one, by `TablesWellFormed`): a larger numeric never yields an
   * earlier grade, nor null after a grade.
   */
  lemma ClosestSortOrderMonotone(t: seq<GradeDefinition>, system: GradeSystem, n1: int, n2: int)
    requires WellFormed(t, system) && n1 <= n2
    requires ClosestFrom(t, n1, None).Some?
    ensures ClosestFrom(t, n2, None).Some?
    ensures ClosestFrom(t, n1, None).value.sortOrder <= ClosestFrom(t, n2, None).value.sortOrder
  {
    ClosestMonotone(t, n1, n2);
    var r1 := ClosestFrom(t, n1, None).value;
    var r2 := ClosestFrom(t, n2, None).value;
    assert t[IndexOf(t, r1)].sortOrder == IndexOf(t, r1);
    assert t[IndexOf(t, r2)].sortOrder == IndexOf(t, r2);
  }

  // ---------------------------------------------------------------- bands

  /** The band of a row. */
  function BandOf(g: GradeDefinition): string {
    g.band
  }

  /** The bands of a table, each once, in order of first appearance (the loop of `getBands`). */
  function BandsOf(t: seq<GradeDefinition>): (r: seq<string>)
    ensures NoDup(r)
    ensures forall b | b in r :: b in Map(t, BandOf)
    ensures forall b | b in r :: exists i | 0 <= i < |t| :: t[i].band == b
    ensures forall i | 0 <= i < |t| :: t[i].band in r
    ensures forall i, j | 0 <= i < j < |r| :: IndexOf(Map(t, BandOf), r[i]) < IndexOf(Map(t, BandOf), r[j])
  {
    var bands := Map(t, BandOf);
    DistinctFirstOccurrenceOrder(bands);
    assert forall i | 0 <= i < |t| :: t[i].band == bands[i];
    Distinct(bands)
  }

  /** `getBands`: each band of the system once, in order of first appearance. */
  function GetBands(system: GradeSystem): seq<string> {
    BandsOf(GradesFor(system))
  }

  /** The rows of `t` in band `band`, in table order (the filter of `getGradesByBand`). */
  function GradesInBand(t: seq<GradeDefinition>, band: string): (r: seq<GradeDefinition>)
    ensures forall g | g in r :: g.band == band && g in t
    ensures forall g | g in t && g.band == band :: g in r
  {
    Filter(t, HasKey(BandOf, band))
  }

  /** `getGradesByBand`: the rows of that band of the system's table. */
  function GetGradesByBand(system: GradeSystem, band: string): seq<GradeDefinition> {
    GradesInBand(GradesFor(system), band)
  }

  /**
   * Bands partition a table: grouping it by band yields exactly the bands
   * `getBands` lists, each holding exactly what `getGradesByBand` returns,
   * and together every row once.
   */
  lemma BandsPartitionTable(t: seq<GradeDefinition>)
    ensures Keys(GroupBy(t, BandOf)) == BandsOf(t)
    ensures forall i | 0 <= i < |GroupBy(t, BandOf)| ::
      GroupBy(t, BandOf)[i].items == GradesInBand(t, GroupBy(t, BandOf)[i].key)
    ensures TotalItems(GroupBy(t, BandOf)) == |t|
  {
    GroupByKeys(t, BandOf);
    GroupByItems(t, BandOf);
  }

  // ---------------------------------------------------------------- colour

  /** The colour ladder of grade chips and its step boundaries. */
  const GRADE_COLORS: seq<string> := ["#4CAF50", "#8BC34A", "#FFC107", "#FF9800", "#F44336", "#9C27B0", "#212121"]
  const COLOR_BOUNDARIES: seq<int> := [400, 500, 600, 700, 800, 900]

  /** `n` lies on rung `i` of the colour ladder: at or above the boundary below it and under the one above. */
  predicate OnRung(n: int, i: int) {
    && 0 <= i < |GRADE_COLORS|
    && (i == 0 || COLOR_BOUNDARIES[i - 1] <= n)
    && (i == |COLOR_BOUNDARIES| || n < COLOR_BOUNDARIES[i])
  }

  /** `getGradeColor`: the colour of the rung `n` lies on. */
  function GetGradeColor(n: int): (r: string)
    ensures forall i | OnRung(n, i) :: r == GRADE_COLORS[i]
    ensures r in GRADE_COLORS
  {
    if n < 400 then "#4CAF50"
    else if n < 500 then "#8BC34A"
    else if n < 600 then "#FFC107"
    else if n < 700 then "#FF9800"
    else if n < 800 then "#F44336"
    else if n < 900 then "#9C27B0"
    else "#212121"
  }

  /** Every numeric lies on exactly one rung. */
  lemma RungUnique(n: int)
    ensures exists i :: OnRung(n, i)
    ensures forall i, j | OnRung(n, i) && OnRung(n, j) :: i == j
  {
    var k := if n < 400 then 0 else if n < 500 then 1 else if n < 600 then 2
      else if n < 700 then 3 else if n < 800 then 4 else if n < 900 then 5 else 6;
    assert OnRung(n, k);
  }

  /** A larger numeric never moves down the colour ladder. */
  lemma GradeColorMonotone(n1: int, n2: int, i: int, j: int)
    requires n1 <= n2 && OnRung(n1, i) && OnRung(n2, j)
    ensures i <= j
  {
  }
}
