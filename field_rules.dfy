/**
 * Rule sets per form field and the single-field validator (`validateField`,
 * `getValidationRules`).
 */
module FieldRules {
  import opened Wrappers
  import opened Text
  import opened Validators

  /**
   * One entry of the rule table. `minLength == 0` stands for an absent
   * `minLength` key: `0` is falsy, so the check skips it exactly as it skips
   * `undefined`.
   */
  datatype RuleSet = RuleSet(required: bool, minLength: nat, email: bool, phone: bool)

  /** The one reason `validateField` reports. */
  datatype FieldError = Required | TooShort(minLength: nat) | InvalidEmail | InvalidPhone

  /** The message shown for each reason; a too-short message carries the minimum in decimal. */
  function Message(e: FieldError): (r: string)
    ensures e.TooShort? ==> |r| > 28 && r[17..|r| - 11] == NatToString(e.minLength)
  {
    match e
    case Required => "This field is required"
    case TooShort(n) => "Must be at least " + NatToString(n) + " characters"
    case InvalidEmail => "Please enter a valid email address"
    case InvalidPhone => "Please enter a valid phone number"
  }

  /** Which `validatePhone` declaration is in force (see Validators). */
  datatype PhoneCheck = DigitCount | Placeholder

  function PhoneAccepts(check: PhoneCheck, phone: string): bool {
    match check
    case DigitCount => ValidatePhone(phone)
    case Placeholder => ValidatePhonePlaceholder(phone)
  }

  /** JavaScript truthiness of a form value: present and not the empty string. */
  predicate Truthy(value: Option<string>) {
    value.Some? && value.value != ""
  }

  /** The precedence rank of each reason: required, then minLength, then email, then phone. */
  function Rank(e: FieldError): nat {
    match e
    case Required => 0
    case TooShort(_) => 1
    case InvalidEmail => 2
    case InvalidPhone => 3
  }

  /**
   * Whether the rule of rank `k` applies to `value` and rejects it. Every
   * rule after `required` is guarded by the value being truthy.
   */
  predicate RuleRejects(k: nat, value: Option<string>, rules: RuleSet, phone: PhoneCheck) {
    if k == 0 then rules.required && !ValidateRequired(value)
    else if k == 1 then Truthy(value) && rules.minLength > 0 && |value.value| < rules.minLength
    else if k == 2 then Truthy(value) && rules.email && !ValidateEmail(value.value)
    else k == 3 && Truthy(value) && rules.phone && !PhoneAccepts(phone, value.value)
  }

  /**
   * `validateField`: the first rule, in precedence order, that rejects the
   * value, or `None` when none does.
   */
  function ValidateField(value: Option<string>, rules: RuleSet, phone: PhoneCheck): (r: Option<FieldError>)
    ensures r.Some? ==> RuleRejects(Rank(r.value), value, rules, phone)
    ensures r.Some? ==> forall k | 0 <= k < Rank(r.value) :: !RuleRejects(k, value, rules, phone)
    ensures r.None? <==> forall k | 0 <= k < 4 :: !RuleRejects(k, value, rules, phone)
    ensures r.Some? && r.value.TooShort? ==> r.value.minLength == rules.minLength
  {
    if rules.required && !ValidateRequired(value) then
      assert RuleRejects(0, value, rules, phone);
      Some(Required)
    else if Truthy(value) && rules.minLength > 0 && |value.value| < rules.minLength then
      assert RuleRejects(1, value, rules, phone);
      Some(TooShort(rules.minLength))
    else if Truthy(value) && rules.email && !ValidateEmail(value.value) then
      assert RuleRejects(2, value, rules, phone);
      Some(InvalidEmail)
    else if Truthy(value) && rules.phone && !PhoneAccepts(phone, value.value) then
      assert RuleRejects(3, value, rules, phone);
      Some(InvalidPhone)
    else None
  }

  /** A required field that is missing, empty or only whitespace reports "This field is required" and nothing else. */
  lemma RequiredRejectsBlank(value: Option<string>, rules: RuleSet, phone: PhoneCheck)
    requires rules.required
    requires value.None? || AllSpace(value.value)
    ensures ValidateField(value, rules, phone) == Some(Required)
    ensures Message(Required) == "This field is required"
  {
  }

  /** An optional field that is missing or empty passes, whatever its other rules. */
  lemma OptionalAcceptsEmpty(value: Option<string>, rules: RuleSet, phone: PhoneCheck)
    requires !rules.required
    requires value.None? || value.value == ""
    ensures ValidateField(value, rules, phone) == None
  {
  }

  /**
   * For a required field with no email or phone rule, a value that is not
   * blank fails only the minimum length, and that length counts the value
   * untrimmed, surrounding whitespace included.
   */
  lemma MinLengthIsUntrimmed(value: string, rules: RuleSet, phone: PhoneCheck)
    requires rules.required && !rules.email && !rules.phone
    requires !AllSpace(value)
    ensures ValidateField(Some(value), rules, phone) ==
      if |value| < rules.minLength then Some(TooShort(rules.minLength)) else None
  {
    var k :| 0 <= k < |value| && !IsSpace(value[k]);
    assert ValidateRequired(Some(value));
  }

  /** Under the name rule " a" passes the two-character minimum and "a" does not. */
  lemma MinLengthExamples(phone: PhoneCheck)
    ensures ValidateField(Some(" a"), NameRules, phone) == None
    ensures ValidateField(Some("a"), NameRules, phone) == Some(TooShort(2))
  {
    assert !IsSpace(" a"[1]);
    MinLengthIsUntrimmed(" a", NameRules, phone);
    assert !IsSpace("a"[0]);
    MinLengthIsUntrimmed("a", NameRules, phone);
  }

  /** The minLength message renders the number in decimal. */
  lemma TooShortMessage()
    ensures Message(TooShort(2)) == "Must be at least 2 characters"
    ensures Message(TooShort(3)) == "Must be at least 3 characters"
  {
  }

  // ---------------------------------------------------------------------------
  // The rule table and getValidationRules


  /** The static table, in declaration order (which is also the order it is validated in). */
  const StaticRules: seq<(string, RuleSet)> := [
    ("leaderName", RuleSet(true, 2, false, false)),
    ("leaderEmail", RuleSet(true, 0, true, false)),
    ("leaderPhone", RuleSet(true, 0, false, true)),
    ("university", RuleSet(true, 0, false, false)),
    ("faculty", RuleSet(true, 0, false, false)),
    ("teamName", RuleSet(true, 3, false, false)),
    ("teamSize", RuleSet(true, 0, false, false))
  ]

  /** The position of `name` in the static table, if it is there. */
  function StaticIndex(name: string): (r: Option<nat>)
    ensures r.Some? ==> r.value < |StaticRules| && StaticRules[r.value].0 == name
    ensures r.None? ==> forall k | 0 <= k < |StaticRules| :: StaticRules[k].0 != name
  {
    if name == "leaderName" then Some(0)
    else if name == "leaderEmail" then Some(1)
    else if name == "leaderPhone" then Some(2)
    else if name == "university" then Some(3)
    else if name == "faculty" then Some(4)
    else if name == "teamName" then Some(5)
    else if name == "teamSize" then Some(6)
    else None
  }

  /** The rule `getValidationRules` gives dynamic member-name fields. */
  const NameRules := RuleSet(true, 2, false, false)
  /** The rule `getValidationRules` gives dynamic member-email fields. */
  const EmailRules := RuleSet(true, 0, true, false)

  /** The name of a dynamically added team-member field: `member${i}Name`, `member${i}Email`. */
  function MemberField(i: nat, part: string): string {
    "member" + NatToString(i) + part
  }

  /**
   * `getValidationRules`: the member-name rule for any name starting with
   * "member" and containing "Name", otherwise the member-email rule for one
   * containing "Email", otherwise the static table's entry (`None` for an
   * unknown name).
   */
  function GetValidationRules(name: string): (r: Option<RuleSet>)
    ensures r.Some? ==> r.value.required
    ensures r.None? <==>
      && StaticIndex(name).None?
      && !(StartsWith(name, "member") && (Contains(name, "Name") || Contains(name, "Email")))
    ensures StartsWith(name, "member") && Contains(name, "Name") ==> r == Some(NameRules)
    ensures StartsWith(name, "member") && !Contains(name, "Name") && Contains(name, "Email") ==> r == Some(EmailRules)
    ensures !(StartsWith(name, "member") && (Contains(name, "Name") || Contains(name, "Email"))) ==>
      forall k | 0 <= k < |StaticRules| && StaticRules[k].0 == name :: r == Some(StaticRules[k].1)
  {
    if StartsWith(name, "member") && Contains(name, "Name") then Some(NameRules)
    else if StartsWith(name, "member") && Contains(name, "Email") then Some(EmailRules)
    else match StaticIndex(name)
      case Some(k) => Some(StaticRules[k].1)
      case None => None
  }

  /** A static field name never starts with "member". */
  lemma StaticNamesAreNotMembers(k: nat)
    requires k < |StaticRules|
    ensures !StartsWith(StaticRules[k].0, "member")
  {
    assert StaticRules[k].0[0] != 'm';
  }

  /** Each static field gets its own table entry. */
  lemma StaticFieldRules(k: nat)
    requires k < |StaticRules|
    ensures GetValidationRules(StaticRules[k].0) == Some(StaticRules[k].1)
  {
    StaticNamesAreNotMembers(k);
  }

  /** `member${i}Name` gets the member-name rule: required, at least two characters. */
  lemma MemberNameFieldRules(i: nat)
    ensures GetValidationRules(MemberField(i, "Name")) == Some(RuleSet(true, 2, false, false))
  {
    var f := MemberField(i, "Name");
    var d := NatToString(i);
    assert f[..6] == "member";
    assert StartsWith(f[6 + |d|..], "Name");
  }

  /** `member${i}Email` gets the member-email rule: required, email shape. */
  lemma MemberEmailFieldRules(i: nat)
    ensures GetValidationRules(MemberField(i, "Email")) == Some(RuleSet(true, 0, true, false))
  {
    var f := MemberField(i, "Email");
    var d := NatToString(i);
    assert f[..6] == "member";
    assert StartsWith(f[6 + |d|..], "Email");
    forall k | 0 <= k < |f| ensures f[k] != "Name"[0] {
      if k < 6 {
        assert f[k] == "member"[k];
      } else if k < 6 + |d| {
        assert f[k] == d[k - 6];
      } else {
        assert f[k] == "Email"[k - 6 - |d|];
      }
    }
    NotContainsMissingChar(f, "Name", 0);
  }
}
