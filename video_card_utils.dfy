/**
 * Formatting helpers of the swipeable video card (mobile/src/utils/videoCardUtils.ts): the
 * name/age line, the occupation/interests line, error messages for display, and the clean-up
 * of a fetched profile before rendering.
 */
module VideoCardUtils {
  import opened Wrappers
  import opened JsText
  import opened DatingTypes

  /** `if (profile.age)`: a non-zero number or a non-empty string. */
  predicate TruthyAge(age: Option<AgeValue>)
  {
    age.Some? && match age.value
      case AgeNumber(n) => n != 0
      case AgeString(s) => s != ""
  }

  /** `${profile.age}`. */
  function AgeText(age: AgeValue): string
  {
    match age
    case AgeNumber(n) => IntToString(n)
    case AgeString(s) => s
  }

  /** `formatProfileInfo`: name, then age, each only when truthy, joined by ", ". */
  method FormatProfileInfo(profile: DatingProfile) returns (r: string)
    ensures r == "" <==> !TruthyText(profile.name) && !TruthyAge(profile.age)
    ensures TruthyText(profile.name) && TruthyAge(profile.age) ==> r == profile.name.value + ", " + AgeText(profile.age.value)
    ensures TruthyText(profile.name) && !TruthyAge(profile.age) ==> r == profile.name.value
    ensures !TruthyText(profile.name) && TruthyAge(profile.age) ==> r == AgeText(profile.age.value)
  {
    var parts: seq<string> := [];
    if TruthyText(profile.name) {
      parts := parts + [profile.name.value];
    }
    if TruthyAge(profile.age) {
      parts := parts + [AgeText(profile.age.value)];
    }
    r := Join(parts, ", ");
  }

  /** `formatProfileDetails`: occupation, then interests, each only when truthy, joined by " & ". */
  method FormatProfileDetails(profile: DatingProfile) returns (r: string)
    ensures r == "" <==> !TruthyText(profile.occupation) && !TruthyText(profile.interests)
    ensures TruthyText(profile.occupation) && TruthyText(profile.interests) ==> r == profile.occupation.value + " & " + profile.interests.value
    ensures TruthyText(profile.occupation) && !TruthyText(profile.interests) ==> r == profile.occupation.value
    ensures !TruthyText(profile.occupation) && TruthyText(profile.interests) ==> r == profile.interests.value
  {
    var parts: seq<string> := [];
    if TruthyText(profile.occupation) {
      parts := parts + [profile.occupation.value];
    }
    if TruthyText(profile.interests) {
      parts := parts + [profile.interests.value];
    }
    r := Join(parts, " & ");
  }

  datatype ErrorCode = CodeString(s: string) | CodeNumber(n: int)

  /**
   * What reaches `formatErrorMessage`: a string, an object that may carry a string `message`
   * and a `code`, `null`/`undefined`, or another value without those properties.
   */
  datatype ErrorValue =
    | ErrString(s: string)
    | ErrObject(message: Option<string>, code: Option<ErrorCode>)
    | ErrNullish
    | ErrOther

  predicate TruthyCode(code: Option<ErrorCode>)
  {
    code.Some? && match code.value
      case CodeString(s) => s != ""
      case CodeNumber(n) => n != 0
  }

  function CodeText(code: ErrorCode): string
  {
    match code
    case CodeString(s) => s
    case CodeNumber(n) => IntToString(n)
  }

  const UnknownError := "Ett okänt fel uppstod"

  /** `formatErrorMessage`: a string as it is, else a truthy message, else the code, else the fixed text. */
  function FormatErrorMessage(error: ErrorValue): (r: string)
    ensures error.ErrString? ==> r == error.s
    ensures error.ErrObject? && TruthyText(error.message) ==> r == error.message.value
    ensures error.ErrObject? && !TruthyText(error.message) && TruthyCode(error.code) ==> r == "Error code: " + CodeText(error.code.value)
    ensures !error.ErrString? && !(error.ErrObject? && (TruthyText(error.message) || TruthyCode(error.code))) ==> r == UnknownError
  {
    match error
    case ErrString(s) => s
    case ErrObject(message, code) =>
      if TruthyText(message) then message.value
      else if TruthyCode(code) then "Error code: " + CodeText(code.value)
      else UnknownError
    case _ => UnknownError
  }

  /** Only a string error can be shown as the empty text. */
  lemma ErrorMessageEmptyOnlyForEmptyString(error: ErrorValue)
    ensures FormatErrorMessage(error) == "" <==> error == ErrString("")
  {
  }

  /** `value?.trim() || ''`. */
  function TrimOrEmpty(value: Option<string>): (r: string)
    ensures IsTrimmed(r)
    ensures value.None? ==> r == ""
    ensures value.Some? ==> r == Trim(value.value)
  {
    match value
    case None => ""
    case Some(s) => Trim(s)
  }

  /**
   * The age after `sanitizeProfile`: a number is kept (0 included), a string goes through
   * `parseInt` and NaN or 0 become absent, anything else is absent.
   */
  function SanitizeAge(age: Option<AgeValue>): (r: Option<AgeValue>)
    ensures r.Some? ==> r.value.AgeNumber?
    ensures age.Some? && age.value.AgeNumber? ==> r == age
    ensures age.Some? && age.value.AgeString? ==>
      (r.None? <==> ParseInt(age.value.s).None? || ParseInt(age.value.s) == Some(0))
    ensures age.Some? && age.value.AgeString? && r.Some? ==> Some(r.value.n) == ParseInt(age.value.s)
    ensures age.None? ==> r.None?
  {
    match age
    case None => None
    case Some(AgeNumber(n)) => age
    case Some(AgeString(s)) =>
      match ParseInt(s)
      case None => None
      case Some(n) => if n == 0 then None else Some(AgeNumber(n))
  }

  /** `sanitizeProfile`: the four text fields trimmed ('' when absent), the age normalised, everything else kept. */
  function SanitizeProfile(profile: DatingProfile): (r: DatingProfile)
    ensures r.name == Some(TrimOrEmpty(profile.name)) && r.occupation == Some(TrimOrEmpty(profile.occupation))
    ensures r.interests == Some(TrimOrEmpty(profile.interests)) && r.location == Some(TrimOrEmpty(profile.location))
    ensures r.age == SanitizeAge(profile.age)
    ensures r.(name := profile.name, occupation := profile.occupation, interests := profile.interests,
               location := profile.location, age := profile.age) == profile
  {
    profile.(
      name := Some(TrimOrEmpty(profile.name)),
      occupation := Some(TrimOrEmpty(profile.occupation)),
      interests := Some(TrimOrEmpty(profile.interests)),
      location := Some(TrimOrEmpty(profile.location)),
      age := SanitizeAge(profile.age))
  }

  /** Sanitising a sanitised profile changes nothing. */
  lemma SanitizeProfileIdempotent(profile: DatingProfile)
    ensures SanitizeProfile(SanitizeProfile(profile)) == SanitizeProfile(profile)
  {
    TrimOfTrimmedOption(profile.name);
    TrimOfTrimmedOption(profile.occupation);
    TrimOfTrimmedOption(profile.interests);
    TrimOfTrimmedOption(profile.location);
  }

  lemma TrimOfTrimmedOption(value: Option<string>)
    ensures TrimOrEmpty(Some(TrimOrEmpty(value))) == TrimOrEmpty(value)
  {
    TrimOfTrimmed(TrimOrEmpty(value));
  }

  /** A whole-number age string is shown as that number once sanitised; "0" and text disappear. */
  lemma SanitizedStringAge(n: nat)
    ensures SanitizeAge(Some(AgeString(NatToString(n)))) == if n == 0 then None else Some(AgeNumber(n))
  {
    ParseIntOfNatToString(n);
  }
}
