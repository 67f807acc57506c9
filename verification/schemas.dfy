// The shared request validators. Each zod object schema is written down as
// data — a list of fields, each with a check and a presence rule — and one
// interpreter says which JSON bodies a schema accepts and what it outputs.

module Schemas {
  import opened Wrappers
  import opened Seqs
  import opened Enums
  import opened Strings

  /** A parsed JSON request body. Numbers are exact reals. */
  datatype Json =
    | JNull
    | JBool(b: bool)
    | JNum(n: real)
    | JStr(s: string)
    | JArr(items: seq<Json>)
    | JObj(fields: map<string, Json>)

  /** The library's `uuid`, `datetime` and `url` string formats, taken as given. */
  datatype Formats = Formats(isUuid: string -> bool, isDatetime: string -> bool, isUrl: string -> bool)

  /** What a value must be. Bounds are inclusive; `None` means unbounded. */
  datatype Check =
    | IsString(minLen: nat, maxLen: Option<nat>)
    | IsEnum(values: seq<string>)
    | IsInt(lo: Option<int>, hi: Option<int>)
    | IsNumber(min: Option<real>, max: Option<real>, positive: bool)
    | IsBool
    | IsDate
    | IsUuid
    | IsDatetime
    | IsUrl
    | ArrayOf(elem: Check)
    | RecordOf(value: Check)
    | ObjectOf(fields: seq<Field>)

  /** Whether a key must be present (`optional()`, `default(v)`, or neither). */
  datatype Presence = Required | Optional | Default(value: Json)

  datatype Field = Field(name: string, check: Check, presence: Presence)

  // ---------------------------------------------------------------- checks

  /** The pattern `^\d{4}-\d{2}-\d{2}$`: digits and dashes in place, nothing about the calendar. */
  predicate IsDatePattern(s: string) {
    && |s| == 10
    && s[4] == '-' && s[7] == '-'
    && forall i | 0 <= i < 10 && i != 4 && i != 7 :: '0' <= s[i] <= '9'
  }

  /** `Number.isInteger` on an exact number. */
  predicate IsIntegral(x: real) {
    x.Floor as real == x
  }

  predicate WithinInt(x: real, lo: Option<int>, hi: Option<int>) {
    && (lo.None? || lo.value as real <= x)
    && (hi.None? || x <= hi.value as real)
  }

  /** One emoji is two units long, so a one-character limit refuses it. */
  lemma AstralCharCountsTwice(fm: Formats)
    ensures Utf16Length("\U{1F600}") == 2
    ensures !CheckOk(fm, IsString(0, Some(1)), JStr("\U{1F600}"))
  {
  }

  /** Does `v` pass check `c`? */
  predicate CheckOk(fm: Formats, c: Check, v: Json)
    decreases c, 1
  {
    match c
    case IsString(minLen, maxLen) =>
      v.JStr? && minLen <= Utf16Length(v.s) && (maxLen.None? || Utf16Length(v.s) <= maxLen.value)
    case IsEnum(values) => v.JStr? && v.s in values
    case IsInt(lo, hi) => v.JNum? && IsIntegral(v.n) && WithinInt(v.n, lo, hi)
    case IsNumber(min, max, positive) =>
      && v.JNum?
      && (min.None? || min.value <= v.n)
      && (max.None? || v.n <= max.value)
      && (!positive || v.n > 0.0)
    case IsBool => v.JBool?
    case IsDate => v.JStr? && IsDatePattern(v.s)
    case IsUuid => v.JStr? && fm.isUuid(v.s)
    case IsDatetime => v.JStr? && fm.isDatetime(v.s)
    case IsUrl => v.JStr? && fm.isUrl(v.s)
    case ArrayOf(elem) => v.JArr? && forall i | 0 <= i < |v.items| :: CheckOk(fm, elem, v.items[i])
    case RecordOf(value) => v.JObj? && forall k | k in v.fields :: CheckOk(fm, value, v.fields[k])
    case ObjectOf(fields) => v.JObj? && forall i | 0 <= i < |fields| :: FieldOk(fm, fields[i], v.fields)
  }

  /** A field is fine when present and passing, or absent and not required. */
  predicate FieldOk(fm: Formats, f: Field, obj: map<string, Json>)
    decreases f, 0
  {
    if f.name in obj then CheckOk(fm, f.check, obj[f.name]) else !f.presence.Required?
  }

  /** Does the object schema `fs` accept `v`? Unknown keys are allowed (and dropped from the output). */
  predicate Accepts(fm: Formats, fs: seq<Field>, v: Json) {
    v.JObj? && forall i | 0 <= i < |fs| :: FieldOk(fm, fs[i], v.fields)
  }

  /** The field named `k`, if the schema has one. */
  function FieldNamed(fs: seq<Field>, k: string): Option<Field> {
    Find(fs, (f: Field) => f.name == k)
  }

  /** A key that appears in the output: present in the input, or absent with a default. */
  predicate InOutput(fs: seq<Field>, obj: map<string, Json>, k: string) {
    FieldNamed(fs, k).Some? && (k in obj || FieldNamed(fs, k).value.presence.Default?)
  }

  /** `schema.parse(v)`: the known keys only, with defaults filled in for absent ones; `None` on rejection. */
  function Parse(fm: Formats, fs: seq<Field>, v: Json): (r: Option<map<string, Json>>)
    ensures r.Some? <==> Accepts(fm, fs, v)
    ensures r.Some? ==> forall k | k in r.value :: FieldNamed(fs, k).Some?
  {
    if !Accepts(fm, fs, v) then None
    else
      var obj := v.fields;
      var names := set f | f in fs :: f.name;
      Some(map k | k in names && InOutput(fs, obj, k) ::
        if k in obj then obj[k] else FieldNamed(fs, k).value.presence.value)
  }

  /** `schema.partial()`: every field optional. A default is no longer applied once its field is optional. */
  function Partial(fs: seq<Field>): (r: seq<Field>)
    ensures |r| == |fs|
    ensures forall i | 0 <= i < |fs| :: r[i] == Field(fs[i].name, fs[i].check, Optional)
  {
    Map(fs, (f: Field) => Field(f.name, f.check, Optional))
  }

  // ---------------------------------------------------------------- generic facts

  /** Whatever a schema accepts, its partial form accepts too. */
  lemma PartialAcceptsMore(fm: Formats, fs: seq<Field>, v: Json)
    requires Accepts(fm, fs, v)
    ensures Accepts(fm, Partial(fs), v)
  {
    var p := Partial(fs);
    forall i | 0 <= i < |p|
      ensures FieldOk(fm, p[i], v.fields)
    {
      assert FieldOk(fm, fs[i], v.fields);
    }
  }

  /** A partial schema accepts an object exactly when every key it names that is present passes its check. */
  lemma PartialAcceptsIff(fm: Formats, fs: seq<Field>, obj: map<string, Json>)
    ensures Accepts(fm, Partial(fs), JObj(obj)) <==>
      forall i | 0 <= i < |fs| && fs[i].name in obj :: CheckOk(fm, fs[i].check, obj[fs[i].name])
  {
    var p := Partial(fs);
    if forall i | 0 <= i < |fs| && fs[i].name in obj :: CheckOk(fm, fs[i].check, obj[fs[i].name]) {
      forall i | 0 <= i < |p|
        ensures FieldOk(fm, p[i], obj)
      {
      }
    }
  }

  /** A required field must be present, and present with a passing value, for the schema to accept. */
  lemma AcceptedFieldPasses(fm: Formats, fs: seq<Field>, v: Json, i: nat)
    requires Accepts(fm, fs, v) && i < |fs|
    ensures fs[i].presence.Required? ==> fs[i].name in v.fields
    ensures fs[i].name in v.fields ==> CheckOk(fm, fs[i].check, v.fields[fs[i].name])
  {
    assert FieldOk(fm, fs[i], v.fields);
  }

  /**
   * The output of a parse: a given value is kept as given, an absent field with
   * a default gets the default, and an absent field without one stays absent.
   */
  lemma ParseOutput(fm: Formats, fs: seq<Field>, v: Json, i: nat)
    requires Accepts(fm, fs, v) && i < |fs|
    requires forall j | 0 <= j < i :: fs[j].name != fs[i].name
    ensures var out := Parse(fm, fs, v).value;
      && (fs[i].name in v.fields ==> fs[i].name in out && out[fs[i].name] == v.fields[fs[i].name])
      && (fs[i].name !in v.fields && fs[i].presence.Default? ==>
            fs[i].name in out && out[fs[i].name] == fs[i].presence.value)
      && (fs[i].name !in v.fields && !fs[i].presence.Default? ==> fs[i].name !in out)
  {
    var k := fs[i].name;
    var r := FieldNamed(fs, k);
    assert r == Some(fs[i]) by {
      var j :| 0 <= j < |fs| && fs[j] == r.value && forall m | 0 <= m < j :: fs[m].name != k;
    }
    assert fs[i] in fs;
  }

  // ---------------------------------------------------------------- the schemas

  const CREATE_ASCENT: seq<Field> := [
    Field("name", IsString(0, Some(255)), Optional),
    Field("grade", IsString(1, Some(20)), Required),
    Field("gradeSystem", IsEnum(GRADE_SYSTEMS), Required),
    Field("style", IsEnum(ASCENT_STYLES), Required),
    Field("attempts", IsInt(Some(1), None), Default(JNum(1.0))),
    Field("result", IsEnum(ASCENT_RESULTS), Required),
    Field("wallAngle", IsEnum(WALL_ANGLES), Optional),
    Field("holdTypes", ArrayOf(IsEnum(HOLD_TYPES)), Optional),
    Field("notes", IsString(0, None), Optional),
    Field("rating", IsInt(Some(1), Some(5)), Optional),
    Field("boardType", IsEnum(BOARD_TYPES), Optional),
    Field("boardAngle", IsInt(Some(0), Some(70)), Optional),
    Field("boardClimbUuid", IsString(0, Some(100)), Optional),
    Field("boardClimbUrl", IsUrl, Optional)
  ]

  const UPDATE_ASCENT: seq<Field> := Partial(CREATE_ASCENT)

  const CREATE_SESSION: seq<Field> := [
    Field("locationId", IsUuid, Optional),
    Field("date", IsDate, Required),
    Field("startTime", IsDatetime, Optional),
    Field("endTime", IsDatetime, Optional),
    Field("type", IsEnum(SESSION_TYPES), Required),
    Field("notes", IsString(0, None), Optional),
    Field("moodBefore", IsInt(Some(1), Some(5)), Optional),
    Field("moodAfter", IsInt(Some(1), Some(5)), Optional),
    Field("energyLevel", IsInt(Some(1), Some(5)), Optional),
    Field("perceivedExertion", IsInt(Some(1), Some(10)), Optional),
    Field("isOutdoor", IsBool, Default(JBool(false)))
  ]

  const UPDATE_SESSION: seq<Field> := Partial(CREATE_SESSION)

  const INJURY: seq<Field> := [
    Field("area", IsString(0, None), Required),
    Field("severity", IsInt(Some(1), Some(5)), Required),
    Field("notes", IsString(0, None), Optional)
  ]

  const CREATE_WELLBEING: seq<Field> := [
    Field("date", IsDate, Required),
    Field("sleepHours", IsNumber(Some(0.0), Some(24.0), false), Optional),
    Field("sleepQuality", IsInt(Some(1), Some(5)), Optional),
    Field("fatigue", IsInt(Some(1), Some(5)), Optional),
    Field("fingerHealth", IsInt(Some(1), Some(5)), Optional),
    Field("skinCondition", IsInt(Some(1), Some(5)), Optional),
    Field("motivation", IsInt(Some(1), Some(5)), Optional),
    Field("stress", IsInt(Some(1), Some(5)), Optional),
    Field("soreness", RecordOf(IsInt(Some(1), Some(5))), Optional),
    Field("injuries", ArrayOf(ObjectOf(INJURY)), Optional),
    Field("bodyWeight", IsNumber(None, None, true), Optional),
    Field("notes", IsString(0, None), Optional)
  ]

  const CREATE_PROJECT: seq<Field> := [
    Field("name", IsString(1, Some(255)), Required),
    Field("grade", IsString(0, Some(20)), Optional),
    Field("gradeSystem", IsEnum(GRADE_SYSTEMS), Optional),
    Field("locationId", IsUuid, Optional),
    Field("type", IsEnum(PROJECT_TYPES), Required),
    Field("targetDate", IsDate, Optional),
    Field("notes", IsString(0, None), Optional),
    Field("boardType", IsEnum(BOARD_TYPES), Optional),
    Field("boardClimbUuid", IsString(0, Some(100)), Optional)
  ]

  /** `createProjectSchema.partial().extend({...})`: none of the three added keys is already a field. */
  const UPDATE_PROJECT: seq<Field> := Partial(CREATE_PROJECT) + [
    Field("status", IsEnum(PROJECT_STATUSES), Optional),
    Field("sentDate", IsDate, Optional),
    Field("sentAscentId", IsUuid, Optional)
  ]

  const CREATE_PROJECT_ATTEMPT: seq<Field> := [
    Field("sessionId", IsUuid, Optional),
    Field("ascentId", IsUuid, Optional),
    Field("date", IsDate, Required),
    Field("notes", IsString(0, None), Optional),
    Field("progressRating", IsInt(Some(1), Some(5)), Optional)
  ]

  const CONNECT_BOARD: seq<Field> := [
    Field("boardType", IsEnum(BOARD_TYPES), Required),
    Field("username", IsString(1, Some(255)), Required),
    Field("password", IsString(1, Some(255)), Required)
  ]

  // ---------------------------------------------------------------- what they promise

  /** Key `k` is absent or holds an integer in [lo, hi]. */
  predicate OptIntIn(obj: map<string, Json>, k: string, lo: int, hi: int) {
    k in obj ==> obj[k].JNum? && IsIntegral(obj[k].n) && lo as real <= obj[k].n <= hi as real
  }

  /** Key `k` holds a string whose JavaScript length is in [lo, hi]. */
  predicate StrLenIn(obj: map<string, Json>, k: string, lo: nat, hi: nat) {
    k in obj && obj[k].JStr? && lo <= Utf16Length(obj[k].s) <= hi
  }

  /** Key `k` holds one of `values`. */
  predicate OneOf(obj: map<string, Json>, k: string, values: seq<string>) {
    k in obj && obj[k].JStr? && obj[k].s in values
  }

  /** Key `k` holds a string matching the date pattern. */
  predicate DateAt(obj: map<string, Json>, k: string) {
    k in obj && obj[k].JStr? && IsDatePattern(obj[k].s)
  }

  /** A new ascent: grade of 1–20 characters, the three enums, whole attempts from 1, rating 1–5, board angle 0–70, bounded names. */
  lemma CreateAscentRules(fm: Formats, v: Json)
    requires Accepts(fm, CREATE_ASCENT, v)
    ensures var o := v.fields;
      && StrLenIn(o, "grade", 1, 20)
      && OneOf(o, "gradeSystem", GRADE_SYSTEMS)
      && OneOf(o, "style", ASCENT_STYLES)
      && OneOf(o, "result", ASCENT_RESULTS)
      && ("attempts" in o ==> o["attempts"].JNum? && IsIntegral(o["attempts"].n) && o["attempts"].n >= 1.0)
      && OptIntIn(o, "rating", 1, 5)
      && OptIntIn(o, "boardAngle", 0, 70)
      && ("name" in o ==> o["name"].JStr? && |o["name"].s| <= 255)
      && ("boardClimbUuid" in o ==> o["boardClimbUuid"].JStr? && |o["boardClimbUuid"].s| <= 100)
  {
    var fs := CREATE_ASCENT;
    AcceptedFieldPasses(fm, fs, v, 0);
    AcceptedFieldPasses(fm, fs, v, 1);
    AcceptedFieldPasses(fm, fs, v, 2);
    AcceptedFieldPasses(fm, fs, v, 3);
    AcceptedFieldPasses(fm, fs, v, 4);
    AcceptedFieldPasses(fm, fs, v, 5);
    AcceptedFieldPasses(fm, fs, v, 9);
    AcceptedFieldPasses(fm, fs, v, 11);
    AcceptedFieldPasses(fm, fs, v, 12);
  }

  /** Attempts default to 1 when a new ascent leaves them out. */
  lemma CreateAscentAttemptsDefault(fm: Formats, v: Json)
    requires Accepts(fm, CREATE_ASCENT, v) && "attempts" !in v.fields
    ensures var out := Parse(fm, CREATE_ASCENT, v).value; "attempts" in out && out["attempts"] == JNum(1.0)
  {
    ParseOutput(fm, CREATE_ASCENT, v, 4);
  }

  /** A new session: a pattern date, a session type, moods and energy 1–5, exertion 1–10. */
  lemma CreateSessionRules(fm: Formats, v: Json)
    requires Accepts(fm, CREATE_SESSION, v)
    ensures var o := v.fields;
      && DateAt(o, "date")
      && OneOf(o, "type", SESSION_TYPES)
      && OptIntIn(o, "moodBefore", 1, 5)
      && OptIntIn(o, "moodAfter", 1, 5)
      && OptIntIn(o, "energyLevel", 1, 5)
      && OptIntIn(o, "perceivedExertion", 1, 10)
  {
    var fs := CREATE_SESSION;
    AcceptedFieldPasses(fm, fs, v, 1);
    AcceptedFieldPasses(fm, fs, v, 4);
    AcceptedFieldPasses(fm, fs, v, 6);
    AcceptedFieldPasses(fm, fs, v, 7);
    AcceptedFieldPasses(fm, fs, v, 8);
    AcceptedFieldPasses(fm, fs, v, 9);
  }

  /** `isOutdoor` is the session schema's eleventh field and no earlier field shares its name. */
  lemma OutdoorIsLastSessionField()
    ensures |CREATE_SESSION| == 11
    ensures CREATE_SESSION[10] == Field("isOutdoor", IsBool, Default(JBool(false)))
    ensures forall j | 0 <= j < 10 :: CREATE_SESSION[j].name != "isOutdoor"
  {
  }

  /** `isOutdoor` defaults to false on a new session. */
  lemma CreateSessionOutdoorDefault(fm: Formats, v: Json)
    requires Accepts(fm, CREATE_SESSION, v) && "isOutdoor" !in v.fields
    ensures var out := Parse(fm, CREATE_SESSION, v).value; "isOutdoor" in out && out["isOutdoor"] == JBool(false)
  {
    OutdoorIsLastSessionField();
    ParseOutput(fm, CREATE_SESSION, v, 10);
  }

  /** An update without `isOutdoor` leaves it out rather than resetting it to the default. */
  lemma UpdateSessionKeepsOutdoor(fm: Formats, v: Json)
    requires Accepts(fm, UPDATE_SESSION, v) && "isOutdoor" !in v.fields
    ensures "isOutdoor" !in Parse(fm, UPDATE_SESSION, v).value
  {
    var fs := UPDATE_SESSION;
    assert fs[10] == Field("isOutdoor", IsBool, Optional);
    ParseOutput(fm, fs, v, 10);
  }

  /** A wellbeing log: a pattern date, sleep 0–24 hours, positive weight. */
  lemma CreateWellbeingRules(fm: Formats, v: Json)
    requires Accepts(fm, CREATE_WELLBEING, v)
    ensures var o := v.fields;
      && DateAt(o, "date")
      && ("sleepHours" in o ==> o["sleepHours"].JNum? && 0.0 <= o["sleepHours"].n <= 24.0)
      && ("bodyWeight" in o ==> o["bodyWeight"].JNum? && o["bodyWeight"].n > 0.0)
  {
    var fs := CREATE_WELLBEING;
    AcceptedFieldPasses(fm, fs, v, 0);
    AcceptedFieldPasses(fm, fs, v, 1);
    AcceptedFieldPasses(fm, fs, v, 10);
  }

  /** Soreness, when given, maps each body part to an integer from 1 to 5. */
  lemma CreateWellbeingSoreness(fm: Formats, v: Json)
    requires Accepts(fm, CREATE_WELLBEING, v)
    ensures var o := v.fields;
      "soreness" in o ==>
        o["soreness"].JObj? && forall k | k in o["soreness"].fields :: OptIntIn(o["soreness"].fields, k, 1, 5)
  {
    AcceptedFieldPasses(fm, CREATE_WELLBEING, v, 8);
  }

  /** The six wellbeing metrics, when given, are integers from 1 to 5. */
  lemma CreateWellbeingMetrics(fm: Formats, v: Json)
    requires Accepts(fm, CREATE_WELLBEING, v)
    ensures var o := v.fields;
      && OptIntIn(o, "sleepQuality", 1, 5)
      && OptIntIn(o, "fatigue", 1, 5)
      && OptIntIn(o, "fingerHealth", 1, 5)
      && OptIntIn(o, "skinCondition", 1, 5)
      && OptIntIn(o, "motivation", 1, 5)
      && OptIntIn(o, "stress", 1, 5)
  {
    var fs := CREATE_WELLBEING;
    AcceptedFieldPasses(fm, fs, v, 2);
    AcceptedFieldPasses(fm, fs, v, 3);
    AcceptedFieldPasses(fm, fs, v, 4);
    AcceptedFieldPasses(fm, fs, v, 5);
    AcceptedFieldPasses(fm, fs, v, 6);
    AcceptedFieldPasses(fm, fs, v, 7);
  }

  /** Each listed injury names an area and a severity 1–5. */
  lemma WellbeingInjuryRules(fm: Formats, v: Json, i: nat)
    requires Accepts(fm, CREATE_WELLBEING, v)
    requires "injuries" in v.fields && v.fields["injuries"].JArr? && i < |v.fields["injuries"].items|
    ensures var inj := v.fields["injuries"].items[i];
      && inj.JObj?
      && "area" in inj.fields && inj.fields["area"].JStr?
      && "severity" in inj.fields && OptIntIn(inj.fields, "severity", 1, 5)
  {
    AcceptedFieldPasses(fm, CREATE_WELLBEING, v, 9);
    var inj := v.fields["injuries"].items[i];
    assert CheckOk(fm, ObjectOf(INJURY), inj);
    assert FieldOk(fm, INJURY[0], inj.fields);
    assert FieldOk(fm, INJURY[1], inj.fields);
  }

  /** A new project: a name of 1–255 characters, a project type, a pattern target date. */
  lemma CreateProjectRules(fm: Formats, v: Json)
    requires Accepts(fm, CREATE_PROJECT, v)
    ensures var o := v.fields;
      && StrLenIn(o, "name", 1, 255)
      && OneOf(o, "type", PROJECT_TYPES)
      && ("targetDate" in o ==> DateAt(o, "targetDate"))
  {
    var fs := CREATE_PROJECT;
    AcceptedFieldPasses(fm, fs, v, 0);
    AcceptedFieldPasses(fm, fs, v, 4);
    AcceptedFieldPasses(fm, fs, v, 5);
  }

  /** A project update: the create schema made partial, plus a status and a pattern sent date. */
  lemma UpdateProjectRules(fm: Formats, v: Json)
    ensures Accepts(fm, CREATE_PROJECT, v) && ("status" in v.fields ==> OneOf(v.fields, "status", PROJECT_STATUSES))
      && ("sentDate" in v.fields ==> DateAt(v.fields, "sentDate"))
      && ("sentAscentId" in v.fields ==> CheckOk(fm, IsUuid, v.fields["sentAscentId"]))
      ==> Accepts(fm, UPDATE_PROJECT, v)
    ensures Accepts(fm, UPDATE_PROJECT, v) ==>
      && ("status" in v.fields ==> OneOf(v.fields, "status", PROJECT_STATUSES))
      && ("sentDate" in v.fields ==> DateAt(v.fields, "sentDate"))
  {
    var p := Partial(CREATE_PROJECT);
    if Accepts(fm, CREATE_PROJECT, v) {
      PartialAcceptsMore(fm, CREATE_PROJECT, v);
    }
    if Accepts(fm, UPDATE_PROJECT, v) {
      AcceptedFieldPasses(fm, UPDATE_PROJECT, v, |p|);
      AcceptedFieldPasses(fm, UPDATE_PROJECT, v, |p| + 1);
    }
  }

  /** An attempt needs a pattern date; its progress rating is 1–5. */
  lemma CreateProjectAttemptRules(fm: Formats, v: Json)
    requires Accepts(fm, CREATE_PROJECT_ATTEMPT, v)
    ensures DateAt(v.fields, "date")
    ensures OptIntIn(v.fields, "progressRating", 1, 5)
  {
    AcceptedFieldPasses(fm, CREATE_PROJECT_ATTEMPT, v, 2);
    AcceptedFieldPasses(fm, CREATE_PROJECT_ATTEMPT, v, 4);
  }

  /** Connecting a board: exactly the schema's three rules, in both directions. */
  lemma ConnectBoardRules(fm: Formats, obj: map<string, Json>)
    ensures Accepts(fm, CONNECT_BOARD, JObj(obj)) <==>
      && OneOf(obj, "boardType", BOARD_TYPES)
      && StrLenIn(obj, "username", 1, 255)
      && StrLenIn(obj, "password", 1, 255)
  {
    var v := JObj(obj);
    if Accepts(fm, CONNECT_BOARD, v) {
      AcceptedFieldPasses(fm, CONNECT_BOARD, v, 0);
      AcceptedFieldPasses(fm, CONNECT_BOARD, v, 1);
      AcceptedFieldPasses(fm, CONNECT_BOARD, v, 2);
    }
  }

  /** The date pattern is purely syntactic: it admits 2024-02-30 and rejects 2024-2-03. */
  lemma DatePatternSyntactic()
    ensures IsDatePattern("2024-02-30")
    ensures IsDatePattern("0000-99-99")
    ensures !IsDatePattern("2024-2-03")
    ensures !IsDatePattern("2024-02-03T00:00")
  {
  }

  /** Every update schema accepts the empty object. */
  lemma UpdatesAcceptEmpty(fm: Formats)
    ensures Accepts(fm, UPDATE_ASCENT, JObj(map[]))
    ensures Accepts(fm, UPDATE_SESSION, JObj(map[]))
    ensures Accepts(fm, UPDATE_PROJECT, JObj(map[]))
  {
    PartialAcceptsIff(fm, CREATE_ASCENT, map[]);
    PartialAcceptsIff(fm, CREATE_SESSION, map[]);
    PartialAcceptsIff(fm, CREATE_PROJECT, map[]);
  }
}
