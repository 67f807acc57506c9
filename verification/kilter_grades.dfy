// The Kilter Board difficulty scale and its mapping onto the V scale.
// Kilter reports a continuous difficulty; each threshold of the table starts
// one V grade, and the V grade then gives Crux's normalised numeric.

module KilterGrades {
  import opened Wrappers
  import opened Seqs
  import opened Enums
  import opened Grades

  /** One rung of the Kilter table: from `threshold` upwards the climb is `grade`. */
  datatype Threshold = Threshold(threshold: int, grade: string)

  /** The Kilter difficulty table, in ascending order of threshold. */
  const KILTER_DIFFICULTY_TO_V: seq<Threshold> := [
    Threshold(1, "VB"),
    Threshold(4, "V0"),
    Threshold(7, "V1"),
    Threshold(10, "V2"),
    Threshold(13, "V3"),
    Threshold(16, "V4"),
    Threshold(19, "V5"),
    Threshold(22, "V6"),
    Threshold(25, "V7"),
    Threshold(28, "V8"),
    Threshold(31, "V9"),
    Threshold(34, "V10"),
    Threshold(37, "V11"),
    Threshold(40, "V12"),
    Threshold(43, "V13"),
    Threshold(46, "V14"),
    Threshold(49, "V15"),
    Threshold(52, "V16"),
    Threshold(55, "V17")
  ]

  /** The grade used below every threshold and when the scan stops at once. */
  const DEFAULT_V_GRADE: string := "VB"

  /** The numeric used when the V grade has no definition. */
  const FALLBACK_NUMERIC: int := 300

  /** Thresholds strictly increase along the table. */
  predicate ThresholdsIncreasing(t: seq<Threshold>) {
    forall i, j | 0 <= i < j < |t| :: t[i].threshold < t[j].threshold
  }

  /** The grades of a table, in table order. */
  function GradesOf(t: seq<Threshold>): (r: seq<string>)
    ensures |r| == |t|
    ensures forall i | 0 <= i < |t| :: r[i] == t[i].grade
  {
    seq(|t|, i requires 0 <= i < |t| => t[i].grade)
  }

  /** The thresholds are 1, 4, …, 55: a step of 3, hence strictly increasing. */
  lemma KilterThresholds()
    ensures |KILTER_DIFFICULTY_TO_V| == 19
    ensures forall i | 0 <= i < |KILTER_DIFFICULTY_TO_V| :: KILTER_DIFFICULTY_TO_V[i].threshold == 1 + 3 * i
    ensures ThresholdsIncreasing(KILTER_DIFFICULTY_TO_V)
  {
  }

  /** Each threshold carries its own grade. */
  lemma KilterGradesDistinct()
    ensures NoDup(GradesOf(KILTER_DIFFICULTY_TO_V))
  {
    KilterGradesAreVScale();
    VScaleLabelsDistinct();
  }

  /**
   * The loop of `kilterDifficultyToVGrade`: walk the table keeping the grade
   * of each threshold the difficulty reaches, and stop at the first one it
   * does not.
   */
  function Scan(t: seq<Threshold>, difficulty: real, result: string): string
    decreases |t|
  {
    if |t| == 0 then result
    else if difficulty >= t[0].threshold as real then Scan(t[1..], difficulty, t[0].grade)
    else result
  }

  /** `kilterDifficultyToVGrade`. */
  function KilterDifficultyToVGrade(difficulty: real): string {
    Scan(KILTER_DIFFICULTY_TO_V, difficulty, DEFAULT_V_GRADE)
  }

  /** `difficulty` lies on rung `i` of `t`: at or above its threshold and below the next one, if any. */
  predicate OnRung(t: seq<Threshold>, difficulty: real, i: int) {
    && 0 <= i < |t|
    && t[i].threshold as real <= difficulty
    && (i + 1 == |t| || difficulty < t[i + 1].threshold as real)
  }

  /**
   * Over an increasing table the scan yields the grade of the largest
   * threshold at or below the difficulty, and the starting grade when the
   * difficulty is below the first threshold.
   */
  lemma {:induction false} ScanSpec(t: seq<Threshold>, difficulty: real, result: string)
    requires ThresholdsIncreasing(t)
    ensures |t| == 0 || difficulty < t[0].threshold as real ==> Scan(t, difficulty, result) == result
    ensures forall i | OnRung(t, difficulty, i) :: Scan(t, difficulty, result) == t[i].grade
    decreases |t|
  {
    if |t| > 0 && difficulty >= t[0].threshold as real {
      var rest := t[1..];
      ScanSpec(rest, difficulty, t[0].grade);
      forall i | OnRung(t, difficulty, i)
        ensures Scan(t, difficulty, result) == t[i].grade
      {
        if i > 0 {
          assert OnRung(rest, difficulty, i - 1);
        } else if |rest| > 0 {
          assert difficulty < rest[0].threshold as real;
        }
      }
    }
  }

  /** Over an increasing table, every difficulty at or above the first threshold lies on exactly one rung. */
  lemma {:induction false} RungExists(t: seq<Threshold>, difficulty: real)
    requires ThresholdsIncreasing(t) && |t| > 0 && t[0].threshold as real <= difficulty
    ensures exists i :: OnRung(t, difficulty, i)
    ensures forall i, j | OnRung(t, difficulty, i) && OnRung(t, difficulty, j) :: i == j
    decreases |t|
  {
    if |t| == 1 || difficulty < t[1].threshold as real {
      assert OnRung(t, difficulty, 0);
    } else {
      RungExists(t[1..], difficulty);
      var k :| OnRung(t[1..], difficulty, k);
      assert OnRung(t, difficulty, k + 1);
    }
  }

  /**
   * `kilterDifficultyToVGrade` returns the grade of the largest threshold at
   * or below the difficulty, and `VB` below the first threshold.
   */
  lemma KilterDifficultyToVGradeSpec(difficulty: real)
    ensures difficulty < 1.0 ==> KilterDifficultyToVGrade(difficulty) == "VB"
    ensures forall i | OnRung(KILTER_DIFFICULTY_TO_V, difficulty, i) ::
      KilterDifficultyToVGrade(difficulty) == KILTER_DIFFICULTY_TO_V[i].grade
  {
    KilterThresholds();
    ScanSpec(KILTER_DIFFICULTY_TO_V, difficulty, DEFAULT_V_GRADE);
  }

  /** Over an increasing table, a larger difficulty never lies on an earlier rung. */
  lemma RungOrder(t: seq<Threshold>, d1: real, d2: real, i: int, j: int)
    requires ThresholdsIncreasing(t) && d1 <= d2 && OnRung(t, d1, i) && OnRung(t, d2, j)
    ensures i <= j
  {
  }

  /** The table position of a difficulty's grade: its rung, or 0 (the `VB` row) below the first threshold. */
  function Rung(difficulty: real): (i: nat)
    ensures i < |KILTER_DIFFICULTY_TO_V|
    ensures difficulty < 1.0 ==> i == 0
    ensures difficulty >= 1.0 ==> OnRung(KILTER_DIFFICULTY_TO_V, difficulty, i)
    ensures KilterDifficultyToVGrade(difficulty) == KILTER_DIFFICULTY_TO_V[i].grade
  {
    KilterThresholds();
    KilterDifficultyToVGradeSpec(difficulty);
    if difficulty < 1.0 then 0
    else
      RungExists(KILTER_DIFFICULTY_TO_V, difficulty);
      var i :| OnRung(KILTER_DIFFICULTY_TO_V, difficulty, i);
      i
  }

  /**
   * Monotone by table position: a harder climb never maps to an earlier V
   * grade (positions are unambiguous, by `KilterGradesDistinct`).
   */
  lemma KilterDifficultyToVGradeMonotone(d1: real, d2: real)
    requires d1 <= d2
    ensures Rung(d1) <= Rung(d2)
  {
    if d1 >= 1.0 {
      KilterThresholds();
      RungOrder(KILTER_DIFFICULTY_TO_V, d1, d2, Rung(d1), Rung(d2));
    }
  }

  /** The top of the table: every difficulty from 55 up is V17; and a difficulty of 25 is V7. */
  lemma KilterLandmarks(difficulty: real)
    ensures difficulty >= 55.0 ==> KilterDifficultyToVGrade(difficulty) == "V17"
    ensures KilterDifficultyToVGrade(25.0) == "V7"
  {
    if difficulty >= 55.0 {
      KilterTop(difficulty);
    }
    KilterTwentyFive();
  }

  lemma KilterTop(difficulty: real)
    requires difficulty >= 55.0
    ensures KilterDifficultyToVGrade(difficulty) == "V17"
  {
    KilterDifficultyToVGradeSpec(difficulty);
    assert OnRung(KILTER_DIFFICULTY_TO_V, difficulty, 18);
  }

  lemma KilterTwentyFive()
    ensures KilterDifficultyToVGrade(25.0) == "V7"
  {
    KilterDifficultyToVGradeSpec(25.0);
    assert OnRung(KILTER_DIFFICULTY_TO_V, 25.0, 8);
  }

  /** `kilterDifficultyToNumeric`: the V grade's numeric, or 300 when the grade has no definition. */
  function KilterDifficultyToNumeric(difficulty: real): int {
    NumericIn(V_SCALE_GRADES, KilterDifficultyToVGrade(difficulty)).GetOr(FALLBACK_NUMERIC)
  }

  /** The Kilter table lists the V scale's grades in the V scale's own order. */
  lemma KilterGradesAreVScale()
    ensures |KILTER_DIFFICULTY_TO_V| == |V_SCALE_GRADES|
    ensures forall i | 0 <= i < |V_SCALE_GRADES| :: KILTER_DIFFICULTY_TO_V[i].grade == V_SCALE_GRADES[i].grade
  {
  }

  /**
   * Every Kilter grade has a V-scale definition, so the fallback is never
   * used: the numeric is that of the V-scale row at the difficulty's rung.
   */
  lemma KilterNumericFound(difficulty: real)
    ensures NumericIn(V_SCALE_GRADES, KilterDifficultyToVGrade(difficulty)).Some?
    ensures KilterDifficultyToNumeric(difficulty) == V_SCALE_GRADES[Rung(difficulty)].numeric
  {
    KilterGradesAreVScale();
    VScaleLabelsDistinct();
    NumericAtRow(V_SCALE_GRADES, Rung(difficulty));
  }

  /** `kilterDifficultyToNumeric` lies in [300, 967] and never decreases as difficulty grows. */
  lemma KilterNumericBoundsAndMonotone(d1: real, d2: real)
    requires d1 <= d2
    ensures 300 <= KilterDifficultyToNumeric(d1) <= KilterDifficultyToNumeric(d2) <= 967
  {
    KilterNumericFound(d1);
    KilterNumericFound(d2);
    KilterDifficultyToVGradeMonotone(d1, d2);
    VScaleEnds();
    NumericsBetween(V_SCALE_GRADES, Rung(d1), Rung(d2));
  }
}
