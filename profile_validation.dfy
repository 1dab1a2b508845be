/**
 * Profile form validation (mobile/src/utils/profileValidation.ts): one rule per field, checked
 * in a fixed order with the first failing check's message, a whole-form validator, a
 * single-field validator and the per-field input sanitiser.
 */
module ProfileValidation {
  import opened Wrappers
  import opened JsText

  datatype Field = Gender | Age | Location | Occupation | Interests | About

  /** The profile form (mobile/src/types/profile.ts). */
  datatype ProfileFormData = ProfileFormData(
    gender: string, age: string, location: string, occupation: string, interests: string, about: string)
  {
    function Get(f: Field): string
    {
      match f
      case Gender => gender
      case Age => age
      case Location => location
      case Occupation => occupation
      case Interests => interests
      case About => about
    }
  }

  /** The order of the rule table, which is also the key order of the form object. */
  const ValidationRules: seq<Field> := [Gender, Age, Location, Occupation, Interests, About]

  lemma EveryFieldHasARule(f: Field)
    ensures f in ValidationRules
  {
    match f
    case Gender => assert ValidationRules[0] == f;
    case Age => assert ValidationRules[1] == f;
    case Location => assert ValidationRules[2] == f;
    case Occupation => assert ValidationRules[3] == f;
    case Interests => assert ValidationRules[4] == f;
    case About => assert ValidationRules[5] == f;
  }

  function ValidateGender(value: string): (r: Option<string>)
    ensures r.None? <==> value == "Man" || value == "Kvinna" || value == "Annat"
    ensures IsBlank(value) ==> r == Some("Kön är obligatoriskt")
    ensures !IsBlank(value) && r.Some? ==> r == Some("Välj ett giltigt kön")
  {
    GenderOptionsAreNotBlank();
    if Trim(value) == "" then Some("Kön är obligatoriskt")
    else if value !in ["Man", "Kvinna", "Annat"] then Some("Välj ett giltigt kön")
    else None
  }

  lemma GenderOptionsAreNotBlank()
    ensures !IsBlank("Man") && !IsBlank("Kvinna") && !IsBlank("Annat")
  {
    assert !IsJsSpace("Man"[0]) && !IsJsSpace("Kvinna"[0]) && !IsJsSpace("Annat"[0]);
  }

  /** Accepted iff non-blank and `parseInt` reads a number in 18..100; checks run blank, NaN, too young, too old. */
  function ValidateAge(value: string): (r: Option<string>)
    ensures r.None? <==> !IsBlank(value) && ParseInt(value).Some? && 18 <= ParseInt(value).value <= 100
    ensures IsBlank(value) ==> r == Some("Ålder är obligatorisk")
    ensures !IsBlank(value) && ParseInt(value).None? ==> r == Some("Ange en giltig ålder")
    ensures !IsBlank(value) && ParseInt(value).Some? && ParseInt(value).value < 18 ==> r == Some("Du måste vara minst 18 år")
    ensures !IsBlank(value) && ParseInt(value).Some? && ParseInt(value).value > 100 ==> r == Some("Ange en realistisk ålder")
  {
    if Trim(value) == "" then Some("Ålder är obligatorisk")
    else match ParseInt(value)
      case None => Some("Ange en giltig ålder")
      case Some(n) =>
        if n < 18 then Some("Du måste vara minst 18 år")
        else if n > 100 then Some("Ange en realistisk ålder")
        else None
  }

  /** The shape shared by the text rules: required, at least `min` characters once trimmed, optionally at most `max`. */
  function LengthRule(value: string, min: nat, max: Option<nat>, required: string, tooShort: string, tooLong: string): (r: Option<string>)
    requires min >= 1
    ensures r.None? <==> min <= |Trim(value)| && (max.Some? ==> |Trim(value)| <= max.value)
    ensures IsBlank(value) ==> r == Some(required)
    ensures !IsBlank(value) && |Trim(value)| < min ==> r == Some(tooShort)
    ensures min <= |Trim(value)| && r.Some? ==> r == Some(tooLong)
  {
    var t := Trim(value);
    if t == "" then Some(required)
    else if |t| < min then Some(tooShort)
    else if max.Some? && |t| > max.value then Some(tooLong)
    else None
  }

  /** A length rule looks only at the trimmed value, so trimming first does not change its verdict. */
  lemma LengthRuleOfTrim(value: string, min: nat, max: Option<nat>, required: string, tooShort: string, tooLong: string)
    requires min >= 1
    ensures LengthRule(Trim(value), min, max, required, tooShort, tooLong) == LengthRule(value, min, max, required, tooShort, tooLong)
  {
    TrimIdempotent(value);
  }

  /** The rule table: the message of the first failing check for `f`, or None. */
  function Rule(f: Field, value: string): (r: Option<string>)
    ensures r.Some? ==> r.value != ""
    ensures f == Location ==> (r.None? <==> |Trim(value)| >= 2)
    ensures f == Occupation ==> (r.None? <==> |Trim(value)| >= 2)
    ensures f == Interests ==> (r.None? <==> |Trim(value)| >= 5)
    ensures f == About ==> (r.None? <==> 10 <= |Trim(value)| <= 500)
  {
    match f
    case Gender => ValidateGender(value)
    case Age => ValidateAge(value)
    case Location => LengthRule(value, 2, None, "Plats är obligatorisk", "Ange en giltig plats", "")
    case Occupation => LengthRule(value, 2, None, "Yrke är obligatoriskt", "Ange ett giltigt yrke", "")
    case Interests => LengthRule(value, 5, None, "Intressen är obligatoriska", "Beskriv dina intressen mer utförligt", "")
    case About => LengthRule(value, 10, Some(500), "Om mig är obligatoriskt", "Berätta lite mer om dig själv", "Max 500 tecken")
  }

  /** No field appears twice in the rule table. */
  lemma RulesDistinct(i: nat)
    requires i < |ValidationRules|
    ensures ValidationRules[i] !in ValidationRules[..i]
  {
  }

  /**
   * `validateProfileForm`: an error for a field exactly when that field's rule fails, carrying
   * the rule's message; no error at all exactly when every rule passes.
   */
  method ValidateProfileForm(form: ProfileFormData) returns (errors: map<Field, string>)
    ensures forall f :: f in errors <==> Rule(f, form.Get(f)).Some?
    ensures forall f :: f in errors ==> errors[f] == Rule(f, form.Get(f)).value
    ensures errors == map[] <==> forall f :: Rule(f, form.Get(f)).None?
  {
    ghost var verdict := (f: Field) => Rule(f, form.Get(f));
    errors := map[];
    for i := 0 to |ValidationRules|
      invariant Collected(ValidationRules[..i], verdict, errors)
    {
      ghost var before := errors;
      var field := ValidationRules[i];
      var error := Rule(field, form.Get(field));
      if error.Some? && error.value != "" {
        errors := errors[field := error.value];
      }
      RulesDistinct(i);
      CollectOne(ValidationRules[..i], field, verdict, before, errors);
      PrefixGrows(ValidationRules, i);
    }
    assert ValidationRules[..|ValidationRules|] == ValidationRules;
    ErrorsOfWholeTable(form, verdict, errors);
  }

  /** The prefix one element longer is the prefix followed by that element. */
  lemma PrefixGrows(s: seq<Field>, i: nat)
    requires i < |s|
    ensures s[..i + 1] == s[..i] + [s[i]]
  {
  }

  /** `errors` holds, for each key of `keys`, the non-empty message of its verdict, and nothing else. */
  ghost predicate Collected(keys: seq<Field>, verdict: Field -> Option<string>, errors: map<Field, string>)
  {
    (forall k :: k in errors <==> k in keys && verdict(k).Some? && verdict(k).value != "") &&
    (forall k :: k in errors ==> errors[k] == verdict(k).value)
  }

  /** Running the rule of one more key extends what has been collected by that key. */
  lemma CollectOne(keys: seq<Field>, key: Field, verdict: Field -> Option<string>, before: map<Field, string>, after: map<Field, string>)
    requires key !in keys
    requires Collected(keys, verdict, before)
    requires after == if verdict(key).Some? && verdict(key).value != "" then before[key := verdict(key).value] else before
    ensures Collected(keys + [key], verdict, after)
  {
  }

  /** Once every rule in the table has run, the collected errors are exactly the failing rules. */
  lemma ErrorsOfWholeTable(form: ProfileFormData, verdict: Field -> Option<string>, errors: map<Field, string>)
    requires forall f :: verdict(f) == Rule(f, form.Get(f))
    requires Collected(ValidationRules, verdict, errors)
    ensures forall f :: f in errors <==> Rule(f, form.Get(f)).Some?
    ensures forall f :: f in errors ==> errors[f] == Rule(f, form.Get(f)).value
    ensures errors == map[] <==> forall f :: Rule(f, form.Get(f)).None?
  {
    forall f ensures f in errors <==> Rule(f, form.Get(f)).Some? {
      EveryFieldHasARule(f);
    }
    if errors == map[] {
      forall f ensures Rule(f, form.Get(f)).None? {
        assert f !in errors;
      }
    }
  }

  /** The position of the first rule for `f` in `rules`. */
  function FindRule(rules: seq<Field>, f: Field): (r: Option<nat>)
    ensures r.Some? ==> r.value < |rules| && rules[r.value] == f
    ensures r.None? <==> f !in rules
  {
    if rules == [] then None
    else if rules[0] == f then Some(0)
    else match FindRule(rules[1..], f)
      case None => None
      case Some(k) => Some(k + 1)
  }

  /** `validateField`: looks the field's rule up in the table; every field has one, so it is that rule. */
  function ValidateField(f: Field, value: string): (r: Option<string>)
    ensures r == Rule(f, value)
  {
    EveryFieldHasARule(f);
    match FindRule(ValidationRules, f)
    case Some(k) => Rule(ValidationRules[k], value)
    case None => None
  }

  /**
   * `sanitizeInput`: trims, then keeps only digits of an age, upper-cases the first character of
   * a location or occupation, and cuts interests to 200 and about to 500 characters.
   */
  function SanitizeInput(value: string, f: Field): (r: string)
    ensures f != Interests && f != About ==> IsTrimmed(r)
    ensures f == Age ==> r == OnlyDigits(value)
    ensures f == Gender ==> r == Trim(value)
  {
    var t := Trim(value);
    match f
    case Age => OnlyDigitsOfTrim(value); DigitsAreTrimmed(OnlyDigits(t)); OnlyDigits(t)
    case Location => CapitalizeFirst(t)
    case Occupation => CapitalizeFirst(t)
    case Interests => SliceTo(t, 200)
    case About => SliceTo(t, 500)
    case Gender => t
  }

  /** A string of digits has no blank at either end. */
  lemma DigitsAreTrimmed(s: string)
    requires AllDigits(s)
    ensures IsTrimmed(s)
  {
    if s != [] {
      assert IsDigit(s[0]) && IsDigit(s[|s| - 1]);
    }
  }

  /** Location and occupation keep their trimmed text with only the first character upper-cased. */
  lemma SanitizeInputCapitalises(value: string, f: Field)
    requires f == Location || f == Occupation
    ensures var r := SanitizeInput(value, f); var t := Trim(value);
      && (r == "" <==> IsBlank(value))
      && (t != "" ==> |r| >= |t| && r[|r| - (|t| - 1)..] == t[1..] && r[..|r| - (|t| - 1)] == UpperString(t[0]))
  {
  }

  /** Interests and about keep a prefix of their trimmed text of at most 200 and 500 characters. */
  lemma SanitizeInputCuts(value: string, f: Field)
    requires f == Interests || f == About
    ensures var r := SanitizeInput(value, f); var max := if f == About then 500 else 200; var t := Trim(value);
      && |r| == (if |t| <= max then |t| else max)
      && r == t[..|r|]
      && (|t| <= max ==> r == t && IsTrimmed(r))
  {
  }

  /** `s.slice(0, max)`. */
  function SliceTo(s: string, max: nat): (r: string)
    ensures |r| == (if |s| <= max then |s| else max)
    ensures r == s[..|r|]
    ensures |s| <= max ==> r == s
  {
    s[..if |s| <= max then |s| else max]
  }

  /** `s.charAt(0).toUpperCase() + s.slice(1)`; a trimmed string stays trimmed. */
  function CapitalizeFirst(s: string): (r: string)
    ensures s == "" ==> r == ""
    ensures s != "" ==> r == UpperString(s[0]) + s[1..]
    ensures IsTrimmed(s) ==> IsTrimmed(r)
  {
    if s == "" then "" else UpperString(s[0]) + s[1..]
  }

  /** Trimming removes no digits, so it does not change which digits a string holds. */
  lemma OnlyDigitsOfTrim(value: string)
    ensures OnlyDigits(Trim(value)) == OnlyDigits(value)
  {
    var s := TrimStart(value);
    OnlyDigitsOfBlankPrefix(value, |value| - |s|);
    var t := TrimEnd(s);
    OnlyDigitsOfBlankSuffix(s, |t|);
  }

  lemma {:induction false} OnlyDigitsOfBlankPrefix(s: string, k: nat)
    requires k <= |s| && forall i :: 0 <= i < k ==> IsJsSpace(s[i])
    ensures OnlyDigits(s[k..]) == OnlyDigits(s)
  {
    if k > 0 {
      assert !IsDigit(s[0]);
      assert s[1..][k - 1..] == s[k..];
      OnlyDigitsOfBlankPrefix(s[1..], k - 1);
    }
  }

  lemma {:induction false} OnlyDigitsOfBlankSuffix(s: string, k: nat)
    requires k <= |s| && forall i :: k <= i < |s| ==> IsJsSpace(s[i])
    ensures OnlyDigits(s[..k]) == OnlyDigits(s)
  {
    if s != [] {
      if k == 0 {
        OnlyDigitsBlank(s);
      } else {
        assert s[..k][1..] == s[1..][..k - 1];
        OnlyDigitsOfBlankSuffix(s[1..], k - 1);
      }
    }
  }

  lemma {:induction false} OnlyDigitsBlank(s: string)
    requires forall i :: 0 <= i < |s| ==> IsJsSpace(s[i])
    ensures OnlyDigits(s) == ""
  {
    if s != [] {
      OnlyDigitsBlank(s[1..]);
    }
  }

  /** Every whole number from 18 to 100, written out, is a valid age, and no other whole number is. */
  lemma AgeOfNumber(n: nat)
    ensures ValidateAge(NatToString(n)).None? <==> 18 <= n <= 100
  {
    ParseIntOfNatToString(n);
    DigitsAreNotBlank(NatToString(n));
  }

  lemma DigitsAreNotBlank(s: string)
    requires s != [] && AllDigits(s)
    ensures !IsBlank(s)
  {
    assert IsDigit(s[0]) && !IsJsSpace(s[0]);
  }

  /** `parseInt` is lenient: a hexadecimal literal is accepted as an age (0x20 is 32). */
  lemma AgeAcceptsHexadecimal()
    ensures ParseInt("0x20") == Some(32)
    ensures ValidateAge("0x20").None?
  {
    var hex := "0x20";
    assert TrimStart(hex) == hex;
    var v := hex[2..];
    assert v == "20";
    assert RadixDigitPrefix(v, true) == "20" by {
      assert RadixDigitPrefix("0", true) == "0";
    }
    assert RadixValue("20", true) == 32 by {
      assert "20"[..1] == "2";
      assert "2"[..0] == "";
    }
  }

  /** `parseInt` stops at the first non-digit, so trailing text after an age is ignored. */
  lemma AgeAcceptsTrailingText()
    ensures ParseInt("25 år") == Some(25)
    ensures ValidateAge("25 år").None?
  {
    assert "25 år" == "25" + " år";
    ParseIntOfDigitsThenText("25", " år");
    assert DigitsValue("25") == 25 by {
      assert "25"[..1] == "2";
      assert "2"[..0] == "";
    }
    DigitsAreNotBlank("25 år"[..2]);
  }

  /** Text with no leading digit is NaN and so not a valid age. */
  lemma AgeRejectsText()
    ensures ValidateAge("abc") == Some("Ange en giltig ålder")
  {
    ParseIntOfNonDigit("abc");
    assert !IsJsSpace("abc"[0]);
  }

  /** Cutting about to 500 characters happens after trimming, so the kept part can end in a space. */
  lemma SanitizedAboutCanEndInSpace()
    ensures var v := seq(499, i => 'a') + " b"; !IsTrimmed(SanitizeInput(v, About))
  {
    var v := seq(499, i => 'a') + " b";
    assert TrimStart(v) == v;
    assert TrimEnd(v) == v;
    assert Trim(v) == v;
    assert SanitizeInput(v, About) == v[..500];
    assert v[..500][499] == ' ';
  }
}
