/** The `workout` document type of sanity/schemaTypes/workout.ts: the shape of
    a stored workout, the validation rules its fields carry, and the three
    preview builders that label a workout, an exercise entry and a set. */
module WorkoutSchema {
  import opened Text

  /** A reference to an `exercise` document, by its id. */
  datatype Reference = Reference(ref: string)

  /** Every field may be missing from a stored document; the validation rules
      say which must be present. Numbers are whole numbers here. */
  datatype ExerciseSet = ExerciseSet(reps: Option<int>, weight: Option<int>, weightUnit: Option<string>)

  datatype WorkoutExercise = WorkoutExercise(exercise: Option<Reference>, sets: Option<seq<ExerciseSet>>)

  datatype Workout = Workout(
    userId: Option<string>,
    date: Option<string>,
    duration: Option<int>,
    exercises: Option<seq<WorkoutExercise>>)

  /** The two values offered for a set's weight unit, and the default. */
  const WeightUnits: seq<string> := ["lbs", "kg"]
  const InitialWeightUnit: string := "lbs"

  // ---- validation ----

  /** `Rule.required()` on a string: present and not empty. */
  predicate RequiredString(s: Option<string>) {
    s.Some? && s.value != ""
  }

  /** `Rule.required().min(k)` on a number. */
  predicate RequiredAtLeast(n: Option<int>, k: int) {
    n.Some? && n.value >= k
  }

  /** Reps and weight present and not negative, and a unit from the list. */
  predicate ValidSet(s: ExerciseSet)
    ensures ValidSet(s) ==> s.weightUnit == Some("lbs") || s.weightUnit == Some("kg")
  {
    && RequiredAtLeast(s.reps, 0)
    && RequiredAtLeast(s.weight, 0)
    && RequiredString(s.weightUnit)
    && s.weightUnit.value in WeightUnits
  }

  /** A referenced exercise with at least one set, every set valid. */
  predicate ValidExercise(e: WorkoutExercise)
    ensures ValidExercise(e) ==> Count(e.sets) >= 1
  {
    && e.exercise.Some?
    && e.sets.Some?
    && |e.sets.value| >= 1
    && forall i :: 0 <= i < |e.sets.value| ==> ValidSet(e.sets.value[i])
  }

  /** The rules on a workout document and, through them, on every entry and
      every set it holds. */
  predicate Valid(w: Workout)
    ensures Valid(w) ==> w.userId.Some? && UserText(w.userId) == w.userId.value && w.userId.value != ""
  {
    && RequiredString(w.userId)
    && RequiredString(w.date)
    && RequiredAtLeast(w.duration, 0)
    && (w.exercises.Some? ==> forall i :: 0 <= i < |w.exercises.value| ==> ValidExercise(w.exercises.value[i]))
  }

  /** A new set starts with the unit `lbs`, which passes the unit rule; it
      stays invalid until reps and weight are filled in. */
  function NewSet(): (s: ExerciseSet)
    ensures s.weightUnit == Some(InitialWeightUnit)
    ensures RequiredString(s.weightUnit) && s.weightUnit.value in WeightUnits
    ensures !ValidSet(s)
    ensures forall reps: nat, weight: nat :: ValidSet(s.(reps := Some(reps), weight := Some(weight)))
  {
    ExerciseSet(None, None, Some(InitialWeightUnit))
  }

  // ---- previews ----

  datatype Preview = Preview(title: string, subtitle: string)

  /** `${x ?? '-'}` */
  function OrDash(n: Option<int>): string {
    match n
    case None => "-"
    case Some(v) => IntToString(v)
  }

  /** `weightUnit?.toUpperCase() || 'LBS'` */
  function DisplayUnit(weightUnit: Option<string>): (u: string)
    ensures u != ""
    ensures weightUnit.None? || weightUnit == Some("") ==> u == "LBS"
    ensures weightUnit.Some? && weightUnit.value != "" ==> u == ToUpper(weightUnit.value)
  {
    if weightUnit.None? || weightUnit.value == "" then "LBS" else ToUpper(weightUnit.value)
  }

  lemma DisplayUnitOfListedUnits()
    ensures DisplayUnit(Some("lbs")) == "LBS" && DisplayUnit(Some("kg")) == "KG"
  {
    assert ToUpper("lbs") == "LBS";
    assert ToUpper("kg") == "KG";
  }

  const RepsSeparator: string := " reps \U{D7} "

  /** Title of a set: "<reps> reps × <weight> <UNIT>". */
  function SetPreview(reps: Option<int>, weight: Option<int>, weightUnit: Option<string>): (t: string)
    ensures ParseSetPreview(t) == Some((reps, weight, DisplayUnit(weightUnit)))
  {
    ParseSetPreviewOf(reps, weight, weightUnit);
    OrDash(reps) + RepsSeparator + OrDash(weight) + " " + DisplayUnit(weightUnit)
  }

  /** " <noun>", with an `s` added unless n is 1. */
  function CountNoun(n: nat, noun: string): (r: string)
    ensures n == 1 ==> r == " " + noun
    ensures n != 1 ==> r == " " + noun + "s"
  {
    " " + noun + (if n != 1 then "s" else "")
  }

  /** "<n> <noun>" or "<n> <noun>s". */
  function CountLabel(n: nat, noun: string): string {
    NatToString(n) + CountNoun(n, noun)
  }

  /** `sets?.length || 0` */
  function Count<T>(xs: Option<seq<T>>): nat {
    if xs.None? then 0 else |xs.value|
  }

  /** The title falls back to "Unnamed Exercise" and is never empty; the
      subtitle reads back as the set count (0 when sets are missing). */
  function ExercisePreview(exerciseName: Option<string>, sets: Option<seq<ExerciseSet>>): (p: Preview)
    ensures p.title != ""
    ensures exerciseName.Some? && exerciseName.value != "" ==> p.title == exerciseName.value
    ensures exerciseName.None? || exerciseName == Some("") ==> p.title == "Unnamed Exercise"
    ensures ReadNat(p.subtitle) == Some((Count(sets), CountNoun(Count(sets), "set")))
  {
    CountLabelReadsBack(Count(sets), "set", []);
    assert CountLabel(Count(sets), "set") + [] == CountLabel(Count(sets), "set");
    assert CountNoun(Count(sets), "set") + [] == CountNoun(Count(sets), "set");
    var title := if exerciseName.None? || exerciseName.value == "" then "Unnamed Exercise" else exerciseName.value;
    Preview(title, CountLabel(Count(sets), "set"))
  }

  /** `${userId}` of a possibly missing value. */
  function UserText(userId: Option<string>): string {
    if userId.None? then "undefined" else userId.value
  }

  /** " • User: <userId>" */
  function UserSuffix(userId: Option<string>): string {
    " \U{2022} User: " + UserText(userId)
  }

  /** `localeDate` is the locale-dependent rendering of a present date. The
      title shows it, or "No date"; the subtitle reads back as the exercise
      count, followed by the noun and the user suffix. */
  function WorkoutPreview(date: Option<string>, exercises: Option<seq<WorkoutExercise>>, userId: Option<string>,
                          localeDate: string -> string): (p: Preview)
    ensures date.None? || date == Some("") ==> p.title == "Workout (No date)"
    ensures date.Some? && date.value != "" ==> p.title == "Workout (" + localeDate(date.value) + ")"
    ensures ReadNat(p.subtitle) == Some((Count(exercises), CountNoun(Count(exercises), "exercise") + UserSuffix(userId)))
  {
    CountLabelReadsBack(Count(exercises), "exercise", UserSuffix(userId));
    var formattedDate := if date.Some? && date.value != "" then localeDate(date.value) else "No date";
    Preview("Workout (" + formattedDate + ")",
            CountLabel(Count(exercises), "exercise") + UserSuffix(userId))
  }

  // ---- reading previews back ----

  /** Reads "-" (a missing number) or an integer from the front of `t`. */
  function ReadOrDash(t: string): Option<(Option<int>, string)> {
    if |t| >= 1 && t[0] == '-' && (|t| == 1 || !IsDigit(t[1])) then Some((None, t[1..]))
    else
      match ReadInt(t)
      case None => None
      case Some((v, rest)) => Some((Some(v), rest))
  }

  /** Reads a set title back into reps, weight and the displayed unit. */
  function ParseSetPreview(t: string): Option<(Option<int>, Option<int>, string)> {
    match ReadOrDash(t)
    case None => None
    case Some((reps, rest)) =>
      var k := |RepsSeparator|;
      if |rest| >= k && rest[..k] == RepsSeparator then
        match ReadOrDash(rest[k..])
        case None => None
        case Some((weight, rest2)) =>
          if |rest2| >= 1 && rest2[0] == ' ' then Some((reps, weight, rest2[1..])) else None
      else None
  }

  lemma ReadOrDashOf(n: Option<int>, rest: string)
    requires rest != [] && !IsDigit(rest[0])
    ensures ReadOrDash(OrDash(n) + rest) == Some((n, rest))
  {
    var t := OrDash(n) + rest;
    match n
    case None =>
      assert t[0] == '-' && t[1] == rest[0] && t[1..] == rest;
    case Some(v) =>
      ReadIntOfIntToString(v, rest);
      if v < 0 {
        NatToStringDigits(-v);
        assert t[1] == NatToString(-v)[0];
      } else {
        NatToStringDigits(v);
        assert t[0] == NatToString(v)[0];
      }
  }

  lemma ParseSetPreviewFrom(sr: string, sw: string, unit: string, reps: Option<int>, weight: Option<int>)
    requires ReadOrDash(sr + (RepsSeparator + sw + (" " + unit))) == Some((reps, RepsSeparator + sw + (" " + unit)))
    requires ReadOrDash(sw + (" " + unit)) == Some((weight, " " + unit))
    ensures ParseSetPreview(sr + (RepsSeparator + sw + (" " + unit))) == Some((reps, weight, unit))
  {
    var tail := " " + unit;
    var rest := RepsSeparator + sw + tail;
    var k := |RepsSeparator|;
    assert rest[..k] == RepsSeparator && rest[k..] == sw + tail;
    assert tail[0] == ' ' && tail[1..] == unit;
  }

  /** A set title loses nothing: reps and weight (or their absence) and the
      displayed unit can all be read back from it. */
  lemma ParseSetPreviewOf(reps: Option<int>, weight: Option<int>, weightUnit: Option<string>)
    ensures ParseSetPreview(OrDash(reps) + RepsSeparator + OrDash(weight) + " " + DisplayUnit(weightUnit))
         == Some((reps, weight, DisplayUnit(weightUnit)))
  {
    var sr, sw, unit := OrDash(reps), OrDash(weight), DisplayUnit(weightUnit);
    var tail := " " + unit;
    var rest := RepsSeparator + sw + tail;
    assert sr + RepsSeparator + sw + " " + unit == sr + rest;
    ReadOrDashOf(reps, rest);
    ReadOrDashOf(weight, tail);
    ParseSetPreviewFrom(sr, sw, unit, reps, weight);
  }

  /** The count at the front of a count label reads back, followed by the
      noun, plural exactly when the count is not 1. */
  lemma CountLabelReadsBack(n: nat, noun: string, tail: string)
    ensures ReadNat(CountLabel(n, noun) + tail) == Some((n, CountNoun(n, noun) + tail))
  {
    assert CountLabel(n, noun) + tail == NatToString(n) + (CountNoun(n, noun) + tail);
    ReadNatOfNatToString(n, CountNoun(n, noun) + tail);
  }

  /** For a valid workout the title takes the date branch, never the
      "No date" fallback, and the subtitle names the workout's own user. */
  lemma ValidWorkoutPreview(w: Workout, localeDate: string -> string)
    requires Valid(w)
    ensures WorkoutPreview(w.date, w.exercises, w.userId, localeDate).title
         == "Workout (" + localeDate(w.date.value) + ")"
    ensures var s := WorkoutPreview(w.date, w.exercises, w.userId, localeDate).subtitle;
      |s| >= |w.userId.value| && s[|s| - |w.userId.value|..] == w.userId.value
  {
  }

  /** Every entry of a valid workout previews with at least one set. */
  lemma ValidExercisePreviewCount(e: WorkoutExercise, exerciseName: Option<string>)
    requires ValidExercise(e)
    ensures var n := Count(e.sets);
      n >= 1 && ReadNat(ExercisePreview(exerciseName, e.sets).subtitle) == Some((n, CountNoun(n, "set")))
  {
  }

  /** A valid set previews with both numbers present, never "-", and with
      one of the two listed units. */
  lemma ValidSetPreview(s: ExerciseSet)
    requires ValidSet(s)
    ensures DisplayUnit(s.weightUnit) == "LBS" || DisplayUnit(s.weightUnit) == "KG"
    ensures ParseSetPreview(SetPreview(s.reps, s.weight, s.weightUnit))
         == Some((Some(s.reps.value), Some(s.weight.value), DisplayUnit(s.weightUnit)))
  {
    DisplayUnitOfListedUnits();
  }

  /** Every set of every entry of a valid workout previews as a valid set. */
  lemma ValidWorkoutSetPreview(w: Workout, i: nat, j: nat)
    requires Valid(w) && w.exercises.Some? && i < |w.exercises.value|
    requires w.exercises.value[i].sets.Some? && j < |w.exercises.value[i].sets.value|
    ensures var s := w.exercises.value[i].sets.value[j];
      && s.reps.Some? && s.weight.Some?
      && ParseSetPreview(SetPreview(s.reps, s.weight, s.weightUnit))
         == Some((s.reps, s.weight, DisplayUnit(s.weightUnit)))
      && (DisplayUnit(s.weightUnit) == "LBS" || DisplayUnit(s.weightUnit) == "KG")
  {
    ValidSetPreview(w.exercises.value[i].sets.value[j]);
  }
}
