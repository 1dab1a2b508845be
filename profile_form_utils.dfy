/**
 * Helpers of the profile form (mobile/src/utils/profileFormUtils.ts): trimming before save,
 * change detection, the count of filled fields and the completion percentage, and the
 * per-field keyboard type and maximum input length.
 */
module ProfileFormUtils {
  import opened Wrappers
  import opened JsText
  import opened ProfileValidation

  /** `formatFormData`: every field is the original one trimmed, so none starts or ends in white space. */
  function FormatFormData(data: ProfileFormData): (r: ProfileFormData)
    ensures forall f: Field :: r.Get(f) == Trim(data.Get(f))
  {
    var r := ProfileFormData(
      Trim(data.gender), Trim(data.age), Trim(data.location),
      Trim(data.occupation), Trim(data.interests), Trim(data.about));
    assert forall f: Field :: r.Get(f) == Trim(data.Get(f)) by {
      forall f: Field
        ensures r.Get(f) == Trim(data.Get(f))
      {
        FieldwiseTrimmed(r, data, f);
      }
    }
    r
  }

  lemma FieldwiseTrimmed(r: ProfileFormData, data: ProfileFormData, f: Field)
    requires r.gender == Trim(data.gender) && r.age == Trim(data.age) && r.location == Trim(data.location)
    requires r.occupation == Trim(data.occupation) && r.interests == Trim(data.interests) && r.about == Trim(data.about)
    ensures r.Get(f) == Trim(data.Get(f))
  {
  }

  /** Formatting an already formatted form changes nothing. */
  lemma FormatFormDataIdempotent(data: ProfileFormData)
    ensures FormatFormData(FormatFormData(data)) == FormatFormData(data)
  {
    TrimIdempotent(data.gender);
    TrimIdempotent(data.age);
    TrimIdempotent(data.location);
    TrimIdempotent(data.occupation);
    TrimIdempotent(data.interests);
    TrimIdempotent(data.about);
  }

  /** The text rules look only at the trimmed value, so formatting before saving does not change their verdict. */
  lemma FormattingKeepsTextRules(data: ProfileFormData, f: Field)
    requires f in {Location, Occupation, Interests, About}
    ensures Rule(f, FormatFormData(data).Get(f)) == Rule(f, data.Get(f))
  {
    var v := data.Get(f);
    assert FormatFormData(data).Get(f) == Trim(v);
    match f
    case Location => LengthRuleOfTrim(v, 2, None, "Plats är obligatorisk", "Ange en giltig plats", "");
    case Occupation => LengthRuleOfTrim(v, 2, None, "Yrke är obligatoriskt", "Ange ett giltigt yrke", "");
    case Interests => LengthRuleOfTrim(v, 5, None, "Intressen är obligatoriska", "Beskriv dina intressen mer utförligt", "");
    case About => LengthRuleOfTrim(v, 10, Some(500), "Om mig är obligatoriskt", "Berätta lite mer om dig själv", "Max 500 tecken");
  }

  /** The gender rule compares the raw value, so a padded choice is rejected yet saves as a valid one. */
  lemma GenderRuleSeesPadding()
    ensures ValidateGender(" Man") == Some("Välj ett giltigt kön")
    ensures ValidateGender(Trim(" Man")).None?
  {
    PaddedManIsNotBlank();
    TrimPaddedMan();
  }

  lemma PaddedManIsNotBlank()
    ensures !IsBlank(" Man") && " Man" != "Man" && " Man" != "Kvinna" && " Man" != "Annat"
  {
    var padded := " Man";
    assert !IsJsSpace(padded[1]);
    assert |padded| == 4;
  }

  lemma TrimPaddedMan()
    ensures Trim(" Man") == "Man"
  {
    assert " Man" == " " + "Man" + "";
    TrimSurrounded(" ", "Man", "");
  }

  /** The form's values in key order. */
  function Values(data: ProfileFormData): (r: seq<string>)
    ensures |r| == |ValidationRules|
    ensures forall i :: 0 <= i < |r| ==> r[i] == data.Get(ValidationRules[i])
  {
    [data.gender, data.age, data.location, data.occupation, data.interests, data.about]
  }

  /** `hasFormChanges`: some field differs, which is exactly when the two forms differ. */
  function HasFormChanges(current: ProfileFormData, initial: ProfileFormData): (r: bool)
    ensures r <==> current != initial
  {
    var a, b := Values(current), Values(initial);
    assert current != initial ==> a != b;
    exists i :: 0 <= i < |ValidationRules| && a[i] != b[i]
  }

  /** The number of strings in `values` that are not empty once trimmed. */
  function CountNonBlank(values: seq<string>): (r: nat)
    ensures r <= |values|
  {
    if values == [] then 0
    else (if Trim(values[0]) != "" then 1 else 0) + CountNonBlank(values[1..])
  }

  /** Every value counts exactly when none is blank. */
  lemma {:induction false} CountNonBlankAll(values: seq<string>)
    ensures CountNonBlank(values) == |values| <==> forall i :: 0 <= i < |values| ==> !IsBlank(values[i])
  {
    if values != [] {
      var rest := values[1..];
      CountNonBlankAll(rest);
      var head := if Trim(values[0]) != "" then 1 else 0;
      assert CountNonBlank(values) == head + CountNonBlank(rest);
      if CountNonBlank(values) == |values| {
        assert head == 1 && CountNonBlank(rest) == |rest|;
        forall i | 0 <= i < |values| ensures !IsBlank(values[i]) {
          if i > 0 {
            assert values[i] == rest[i - 1];
          }
        }
      }
      if forall i :: 0 <= i < |values| ==> !IsBlank(values[i]) {
        assert !IsBlank(values[0]);
        forall i | 0 <= i < |rest| ensures !IsBlank(rest[i]) {
          assert rest[i] == values[i + 1];
        }
      }
    }
  }

  /** No value counts exactly when all are blank. */
  lemma {:induction false} CountNonBlankNone(values: seq<string>)
    ensures CountNonBlank(values) == 0 <==> forall i :: 0 <= i < |values| ==> IsBlank(values[i])
  {
    if values != [] {
      CountNonBlankNone(values[1..]);
      assert forall i :: 1 <= i < |values| ==> values[i] == values[1..][i - 1];
    }
  }

  /** `countFilledFields`: between 0 and 6, and 6 exactly when no field is blank. */
  function CountFilledFields(data: ProfileFormData): (r: nat)
    ensures r <= 6
    ensures r == 6 <==> forall f :: !IsBlank(data.Get(f))
    ensures r == 0 <==> forall f :: IsBlank(data.Get(f))
  {
    var v := Values(data);
    var n := CountNonBlank(v);
    CountNonBlankAll(v);
    CountNonBlankNone(v);
    AllFieldsIffAllValues(data, true);
    AllFieldsIffAllValues(data, false);
    n
  }

  lemma AllFieldsIffAllValues(data: ProfileFormData, blank: bool)
    ensures (forall f :: IsBlank(data.Get(f)) == blank) <==>
            (forall i :: 0 <= i < 6 ==> IsBlank(Values(data)[i]) == blank)
  {
    if forall i :: 0 <= i < 6 ==> IsBlank(Values(data)[i]) == blank {
      forall f ensures IsBlank(data.Get(f)) == blank {
        EveryFieldHasARule(f);
        var i :| 0 <= i < 6 && ValidationRules[i] == f;
        assert Values(data)[i] == data.Get(f);
      }
    }
  }

  /**
   * `calculateFormCompletion`: `Math.round(filled / 6 * 100)`, written as the integer
   * `(200 * filled + 6) / 12`; for filled in 0..6 the quotient is never exactly half-way,
   * so rounding in floating point and in this formula agree.
   */
  function CalculateFormCompletion(data: ProfileFormData): (r: nat)
    ensures r <= 100
    ensures r == 100 <==> forall f :: !IsBlank(data.Get(f))
    ensures r == 0 <==> forall f :: IsBlank(data.Get(f))
    ensures 12 * r <= 200 * CountFilledFields(data) + 6 < 12 * (r + 1)
  {
    (200 * CountFilledFields(data) + 6) / 12
  }

  /** More filled fields never give a lower percentage. */
  lemma CompletionMonotone(a: ProfileFormData, b: ProfileFormData)
    requires CountFilledFields(a) <= CountFilledFields(b)
    ensures CalculateFormCompletion(a) <= CalculateFormCompletion(b)
  {
  }

  /** `getKeyboardType`. */
  function GetKeyboardType(f: Field): (r: string)
    ensures r == "numeric" <==> f == Age
    ensures r != "numeric" ==> r == "default"
  {
    if f == Age then "numeric" else "default"
  }

  /** `getMaxLength`: 3 for age, 500 for about, 200 for interests, none otherwise. */
  function GetMaxLength(f: Field): (r: Option<nat>)
    ensures r.Some? <==> f in {Age, About, Interests}
    ensures f == Age ==> r == Some(3)
    ensures f == About ==> r == Some(500)
    ensures f == Interests ==> r == Some(200)
  {
    match f
    case Age => Some(3)
    case About => Some(500)
    case Interests => Some(200)
    case _ => None
  }

  /**
   * The input limits agree with the rest of the form: the about limit is the about rule's upper
   * bound, and a longer interests or about text is cut by the sanitiser to exactly its limit.
   */
  lemma MaxLengthMatchesRules(value: string)
    ensures Rule(About, value).None? ==> |Trim(value)| <= GetMaxLength(About).value
    ensures |Trim(value)| > GetMaxLength(Interests).value ==> |SanitizeInput(value, Interests)| == GetMaxLength(Interests).value
    ensures |Trim(value)| > GetMaxLength(About).value ==> |SanitizeInput(value, About)| == GetMaxLength(About).value
  {
    SanitizeInputCuts(value, Interests);
    SanitizeInputCuts(value, About);
  }

  /** The sanitiser cuts interests and about to the same limits the input fields enforce. */
  lemma SanitizeInputWithinMaxLength(value: string, f: Field)
    requires f == Interests || f == About
    ensures |SanitizeInput(value, f)| <= GetMaxLength(f).value
  {
  }

  /** The sanitiser does not cut an age to three characters; only the input field's limit does. */
  lemma SanitizeInputKeepsLongAge()
    ensures SanitizeInput("1234", Age) == "1234"
    ensures |SanitizeInput("1234", Age)| > GetMaxLength(Age).value
  {
    assert AllDigits("1234");
  }
}
