/**
 * `validateRegistrationForm`: every static field against its rule set, then
 * the dynamic team-member fields 2..teamSize, collected into an error map.
 */
module FormValidator {
  import opened Wrappers
  import opened Text
  import opened Validators
  import opened FieldRules

  /** The submitted form: field name to raw value (what `FormData` holds). */
  type FormValues = map<string, string>

  /**
   * An error map: field name to message, in insertion order, which is the
   * order `Object.entries` and `Object.keys` report for these non-numeric keys.
   */
  type ErrorMap = seq<(string, string)>

  /** `formData.get(name)`: `null` for a field the form does not hold. */
  function Get(form: FormValues, name: string): Option<string> {
    if name in form then Some(form[name]) else None
  }

  /** Some entry of `errors` is stored under `key` (the `in` operator on the error object). */
  predicate HasKey(errors: ErrorMap, key: string) {
    errors != [] && (errors[0].0 == key || HasKey(errors[1..], key))
  }

  lemma {:induction false} HasKeyAt(errors: ErrorMap, key: string)
    ensures HasKey(errors, key) <==> exists p | 0 <= p < |errors| :: errors[p].0 == key
  {
    if errors != [] {
      HasKeyAt(errors[1..], key);
      if HasKey(errors[1..], key) {
        var p :| 0 <= p < |errors| - 1 && errors[1..][p].0 == key;
        assert errors[p + 1].0 == key;
      }
      if exists p | 0 <= p < |errors| :: errors[p].0 == key {
        var p :| 0 <= p < |errors| && errors[p].0 == key;
        if p > 0 {
          assert errors[1..][p - 1].0 == key;
        }
      }
    }
  }

  predicate KeysDistinct(errors: ErrorMap) {
    forall p, q | 0 <= p < q < |errors| :: errors[p].0 != errors[q].0
  }

  /** `errors[key]`: the message stored under `key`, if any. */
  function Lookup(errors: ErrorMap, key: string): (r: Option<string>)
    ensures r.Some? <==> HasKey(errors, key)
  {
    if errors == [] then None
    else if errors[0].0 == key then Some(errors[0].1)
    else
      assert forall p | 1 <= p < |errors| :: errors[p] == errors[1..][p - 1];
      Lookup(errors[1..], key)
  }

  lemma {:induction false} LookupAppend(a: ErrorMap, b: ErrorMap, key: string)
    ensures Lookup(a + b, key) == if HasKey(a, key) then Lookup(a, key) else Lookup(b, key)
  {
    if a != [] {
      assert (a + b)[1..] == a[1..] + b;
      LookupAppend(a[1..], b, key);
    } else {
      assert a + b == b;
    }
  }

  /** `errors[key] = message`: overwrites in place when the key is present, appends otherwise. */
  function Put(errors: ErrorMap, key: string, message: string): (r: ErrorMap)
    ensures HasKey(errors, key) ==> |r| == |errors|
    ensures HasKey(errors, key) ==> forall p | 0 <= p < |errors| :: r[p].0 == errors[p].0
    ensures !HasKey(errors, key) ==> r == errors + [(key, message)]
    ensures Lookup(r, key) == Some(message)
    ensures forall k | k != key :: Lookup(r, k) == Lookup(errors, k)
    ensures r != []
  {
    if errors == [] then [(key, message)]
    else if errors[0].0 == key then [(key, message)] + errors[1..]
    else
      [errors[0]] + Put(errors[1..], key, message)
  }

  // ---------------------------------------------------------------------------
  // The checks the validator runs, in the order it runs them

  /** One checked field and what it contributes to the error map. */
  datatype Check = Check(key: string, error: Option<string>)

  function StaticCheck(form: FormValues, phone: PhoneCheck, k: nat): Check
    requires k < |StaticRules|
  {
    var field := StaticRules[k].0;
    Check(field,
      match ValidateField(Get(form, field), StaticRules[k].1, phone)
      case Some(e) => Some(Message(e))
      case None => None)
  }

  /** Member names are checked for presence only: no minimum length here. */
  function MemberNameCheck(form: FormValues, i: nat): (r: Check)
    ensures r.key == MemberField(i, "Name")
    ensures r.error == None <==> ValidateRequired(Get(form, r.key))
    ensures r.error != None ==> r.error == Some("Team member name is required")
  {
    var key := MemberField(i, "Name");
    Check(key, if !ValidateRequired(Get(form, key)) then Some("Team member name is required") else None)
  }

  /** Member emails report the missing-value message or the format message, never both. */
  function MemberEmailCheck(form: FormValues, i: nat): (r: Check)
    ensures r.key == MemberField(i, "Email")
    ensures r.error == None <==> ValidateRequired(Get(form, r.key)) && ValidateEmail(Get(form, r.key).value)
    ensures r.error == Some("Team member email is required") <==> !ValidateRequired(Get(form, r.key))
    ensures r.error != None ==> r.error == Some("Team member email is required") || r.error == Some("Please enter a valid email address")
  {
    var key := MemberField(i, "Email");
    var value := Get(form, key);
    Check(key,
      if !ValidateRequired(value) then Some("Team member email is required")
      else if !ValidateEmail(value.value) then Some("Please enter a valid email address")
      else None)
  }

  /** The member checks for indices 2..n: name then email, index by index. */
  function MemberChecks(form: FormValues, n: int): (r: seq<Check>)
    ensures |r| == if n < 2 then 0 else 2 * (n - 1)
    decreases n
  {
    if n < 2 then [] else MemberChecks(form, n - 1) + [MemberNameCheck(form, n), MemberEmailCheck(form, n)]
  }

  /** `Number.parseInt(formData.get("teamSize"))`; a missing field parses "null", which is NaN. */
  function TeamSize(form: FormValues): (r: Option<int>)
    ensures "teamSize" !in form || AllSpace(form["teamSize"]) ==> r == None
  {
    match Get(form, "teamSize")
    case Some(s) => ParseInt(s)
    case None => None
  }

  /** The static fields' checks, in rule-table order. */
  function StaticChecks(form: FormValues, phone: PhoneCheck): (r: seq<Check>)
    ensures |r| == |StaticRules|
  {
    seq(|StaticRules|, k requires 0 <= k < |StaticRules| => StaticCheck(form, phone, k))
  }

  /** The member checks a parsed team size calls for; none when it is NaN. */
  function TeamChecks(form: FormValues, size: Option<int>): (r: seq<Check>)
    ensures |r| == if size.Some? && size.value >= 2 then 2 * (size.value - 1) else 0
  {
    match size
    case Some(n) => MemberChecks(form, n)
    case None => []
  }

  /** Every check the validator runs for a given parsed team size, in order. */
  function Checks(form: FormValues, phone: PhoneCheck, size: Option<int>): seq<Check> {
    StaticChecks(form, phone) + TeamChecks(form, size)
  }

  function Entry(c: Check): ErrorMap {
    match c.error
    case Some(m) => [(c.key, m)]
    case None => []
  }

  /** The failed checks, in order, as error-map entries. */
  function Collect(cs: seq<Check>): ErrorMap {
    if cs == [] then [] else Collect(cs[..|cs| - 1]) + Entry(cs[|cs| - 1])
  }

  /** No check in `cs` failed. */
  predicate AllPass(cs: seq<Check>) {
    forall k | 0 <= k < |cs| :: cs[k].error == None
  }

  /** The error map `validateRegistrationForm` builds: empty exactly when every check it runs passes. */
  function FormErrors(form: FormValues, phone: PhoneCheck): (r: ErrorMap)
    ensures r == [] <==> AllPass(Checks(form, phone, TeamSize(form)))
  {
    CollectEmpty(Checks(form, phone, TeamSize(form)));
    Collect(Checks(form, phone, TeamSize(form)))
  }

  lemma {:induction false} CollectEmpty(cs: seq<Check>)
    ensures Collect(cs) == [] <==> AllPass(cs)
  {
    if cs != [] {
      var init := cs[..|cs| - 1];
      CollectEmpty(init);
      assert forall k | 0 <= k < |init| :: init[k] == cs[k];
    }
  }

  // ---------------------------------------------------------------------------
  // The operation

  /**
   * `validateRegistrationForm` minus its call to `displayFormErrors` (see
   * ErrorPresenter.FormView.Display): returns `isValid` and the error map.
   * Its two passes, the static rule table and the team members, are written
   * as the two methods below.
   */
  method ValidateRegistrationForm(form: FormValues, phone: PhoneCheck) returns (isValid: bool, errors: ErrorMap)
    ensures errors == FormErrors(form, phone)
    ensures isValid <==> errors == []
  {
    isValid, errors := ValidateStaticFields(form, phone);
    var teamSize := TeamSize(form);
    if teamSize.Some? && teamSize.value > 1 {
      ghost var checks := Checks(form, phone, teamSize);
      assert checks[..|StaticRules|] == StaticChecks(form, phone);
      MemberSlots(form, phone, teamSize.value);
      isValid, errors := ValidateMembers(form, teamSize.value, isValid, errors, checks, |StaticRules|);
    } else {
      assert Checks(form, phone, teamSize) == StaticChecks(form, phone);
    }
  }

  /** The first pass: every field of the rule table through `validateField`, in table order. */
  method ValidateStaticFields(form: FormValues, phone: PhoneCheck) returns (isValid: bool, errors: ErrorMap)
    ensures errors == Collect(StaticChecks(form, phone))
    ensures isValid <==> errors == []
  {
    ghost var checks := StaticChecks(form, phone);
    isValid := true;
    errors := [];
    for k := 0 to |StaticRules|
      invariant errors == Collect(checks[..k])
      invariant isValid <==> errors == []
    {
      var field := StaticRules[k].0;
      var error := ValidateField(Get(form, field), StaticRules[k].1, phone);
      StaticStep(form, phone, k);
      if error.Some? {
        errors := Put(errors, field, Message(error.value));
        isValid := false;
      }
    }
    assert checks[..|StaticRules|] == checks;
  }

  /**
   * Member `i`'s place in a sequence of checks `cs` whose member checks start
   * at `base`: its name and email checks sit at `base + 2 * (i - 2)` and the
   * next position, and neither key is among the entries before it.
   */
  predicate MemberSlot(form: FormValues, cs: seq<Check>, base: nat, i: nat)
    requires i >= 2
  {
    var at := base + 2 * (i - 2);
    && at + 2 <= |cs|
    && cs[at] == MemberNameCheck(form, i) && cs[at + 1] == MemberEmailCheck(form, i)
    && !HasKey(Collect(cs[..at]), MemberField(i, "Name"))
    && !HasKey(Collect(cs[..at + 1]), MemberField(i, "Email"))
  }

  /**
   * The second pass, run when `parseInt` of the team size gives `n > 1`:
   * members 2..n, name then email, added to the first pass's error map.
   * `cs` is the whole sequence of checks, the members' starting at `base`.
   */
  method ValidateMembers(form: FormValues, n: int, isValid0: bool, errors0: ErrorMap, ghost cs: seq<Check>, ghost base: nat)
    returns (isValid: bool, errors: ErrorMap)
    requires n > 1
    requires |cs| == base + 2 * (n - 1)
    requires forall i | 2 <= i <= n :: MemberSlot(form, cs, base, i)
    requires errors0 == Collect(cs[..base])
    requires isValid0 <==> errors0 == []
    ensures errors == Collect(cs)
    ensures isValid <==> errors == []
  {
    isValid, errors := isValid0, errors0;
    var i := 2;
    ghost var at := base;
    while i <= n
      invariant 2 <= i <= n + 1
      invariant at == base + 2 * (i - 2)
      invariant errors == Collect(cs[..at])
      invariant isValid <==> errors == []
    {
      assert MemberSlot(form, cs, base, i);
      isValid, errors := ValidateMember(form, i, isValid, errors, cs, at);
      i := i + 1;
      at := at + 2;
    }
    assert cs[..at] == cs;
  }

  /**
   * One iteration of the member loop: member `i`'s name, then its email.
   * Member `i`'s two checks sit at `at` and `at + 1` of `cs`; the entries so
   * far are those of the checks before them.
   */
  method ValidateMember(form: FormValues, i: nat, isValid0: bool, errors0: ErrorMap, ghost cs: seq<Check>, ghost at: nat)
    returns (isValid: bool, errors: ErrorMap)
    requires at + 2 <= |cs|
    requires cs[at] == MemberNameCheck(form, i) && cs[at + 1] == MemberEmailCheck(form, i)
    requires !HasKey(Collect(cs[..at]), MemberField(i, "Name"))
    requires !HasKey(Collect(cs[..at + 1]), MemberField(i, "Email"))
    requires errors0 == Collect(cs[..at])
    requires isValid0 <==> errors0 == []
    ensures errors == Collect(cs[..at + 2])
    ensures isValid <==> errors == []
  {
    isValid, errors := isValid0, errors0;
    var nameKey := MemberField(i, "Name");
    var emailKey := MemberField(i, "Email");
    var memberName := Get(form, nameKey);
    var memberEmail := Get(form, emailKey);
    CollectPrefix(cs, at);
    if !ValidateRequired(memberName) {
      errors := Put(errors, nameKey, "Team member name is required");
      isValid := false;
    }
    assert errors == Collect(cs[..at + 1]);
    CollectPrefix(cs, at + 1);
    if !ValidateRequired(memberEmail) {
      errors := Put(errors, emailKey, "Team member email is required");
      isValid := false;
    } else if !ValidateEmail(memberEmail.value) {
      errors := Put(errors, emailKey, "Please enter a valid email address");
      isValid := false;
    }
  }

  /** In the validator's own checks, every member 2..n sits in its slot. */
  lemma MemberSlots(form: FormValues, phone: PhoneCheck, n: int)
    ensures forall i | 2 <= i <= n :: MemberSlot(form, Checks(form, phone, Some(n)), |StaticRules|, i)
  {
    forall i | 2 <= i <= n ensures MemberSlot(form, Checks(form, phone, Some(n)), |StaticRules|, i) {
      MemberChecksInPlace(form, phone, n, i);
      MemberKeysFresh(form, phone, n, i);
    }
  }

  /** The `k`-th static field extends the error map by its own entry, under a key not yet present. */
  lemma StaticStep(form: FormValues, phone: PhoneCheck, k: nat)
    requires k < |StaticRules|
    ensures !HasKey(Collect(StaticChecks(form, phone)[..k]), StaticRules[k].0)
    ensures Collect(StaticChecks(form, phone)[..k + 1]) == Collect(StaticChecks(form, phone)[..k]) + Entry(StaticCheck(form, phone, k))
  {
    StaticChecksRanked(form, phone);
    CollectStep(StaticChecks(form, phone), k);
  }

  /** Member `i`'s two checks sit right after the static ones and the members before it. */
  lemma MemberChecksInPlace(form: FormValues, phone: PhoneCheck, n: int, i: nat)
    requires 2 <= i <= n
    ensures |StaticRules| + 2 * (i - 2) + 2 <= |Checks(form, phone, Some(n))|
    ensures Checks(form, phone, Some(n))[|StaticRules| + 2 * (i - 2)] == MemberNameCheck(form, i)
    ensures Checks(form, phone, Some(n))[|StaticRules| + 2 * (i - 2) + 1] == MemberEmailCheck(form, i)
  {
    var members := MemberChecks(form, n);
    assert Checks(form, phone, Some(n)) == StaticChecks(form, phone) + members;
    MemberChecksAt(form, n, i);
  }

  /** Neither of member `i`'s keys is in the error map before its own check. */
  lemma MemberKeysFresh(form: FormValues, phone: PhoneCheck, n: int, i: nat)
    requires 2 <= i <= n
    ensures |StaticRules| + 2 * (i - 2) + 2 <= |Checks(form, phone, Some(n))|
    ensures !HasKey(Collect(Checks(form, phone, Some(n))[..|StaticRules| + 2 * (i - 2)]), MemberField(i, "Name"))
    ensures !HasKey(Collect(Checks(form, phone, Some(n))[..|StaticRules| + 2 * (i - 2) + 1]), MemberField(i, "Email"))
  {
    MemberChecksInPlace(form, phone, n, i);
    ChecksAreRanked(form, phone, Some(n));
    CollectStep(Checks(form, phone, Some(n)), |StaticRules| + 2 * (i - 2));
    CollectStep(Checks(form, phone, Some(n)), |StaticRules| + 2 * (i - 2) + 1);
  }

  // ---------------------------------------------------------------------------
  // Where each key stands: KeyRank reads a field name back to its position in
  // the validation order (static fields 0..6, then member i's name at 2i+3 and
  // email at 2i+4).

  function KeyRank(key: string): int {
    match StaticIndex(key)
    case Some(k) => k
    case None =>
      if StartsWith(key, "member") then
        match ParseInt(key[6..])
        case Some(i) => 2 * i + 3 + (if EndsWith(key, "Email") then 1 else 0)
        case None => -1
      else -1
  }

  /** Every check's key ranks at the check's own position. */
  predicate Ranked(cs: seq<Check>) {
    forall m | 0 <= m < |cs| :: KeyRank(cs[m].key) == m
  }

  lemma StaticRank(k: nat)
    requires k < |StaticRules|
    ensures KeyRank(StaticRules[k].0) == k
  {
    if k == 0 {} else if k == 1 {} else if k == 2 {} else if k == 3 {}
    else if k == 4 {} else if k == 5 {} else {}
  }

  lemma MemberRank(i: nat, part: string)
    requires part == "Name" || part == "Email"
    ensures KeyRank(MemberField(i, part)) == 2 * i + 3 + (if part == "Email" then 1 else 0)
  {
    MemberKeyHead(i, part);
    MemberKeyTail(i, part);
    ParseIntOfNatToString(i, part);
  }

  /** A member field is no static field, and after "member" comes the index. */
  lemma MemberKeyHead(i: nat, part: string)
    ensures StaticIndex(MemberField(i, part)).None?
    ensures StartsWith(MemberField(i, part), "member")
    ensures MemberField(i, part)[6..] == NatToString(i) + part
  {
    var key := MemberField(i, part);
    assert key[0] == 'm';
    assert key[..6] == "member";
  }

  /** Only the email field of a member ends in "Email". */
  lemma MemberKeyTail(i: nat, part: string)
    requires part == "Name" || part == "Email"
    ensures EndsWith(MemberField(i, part), "Email") <==> part == "Email"
  {
    var key := MemberField(i, part);
    assert key[|key| - 1] == part[|part| - 1];
    if part == "Email" {
      assert key[|key| - 5..] == part;
    }
  }

  lemma {:induction false} MemberChecksAt(form: FormValues, n: int, i: nat)
    requires 2 <= i <= n
    ensures MemberChecks(form, n)[2 * (i - 2)] == MemberNameCheck(form, i)
    ensures MemberChecks(form, n)[2 * (i - 2) + 1] == MemberEmailCheck(form, i)
  {
    if i < n {
      MemberChecksAt(form, n - 1, i);
    }
  }

  lemma StaticChecksRanked(form: FormValues, phone: PhoneCheck)
    ensures Ranked(StaticChecks(form, phone))
  {
    forall m | 0 <= m < |StaticRules| ensures KeyRank(StaticChecks(form, phone)[m].key) == m {
      StaticRank(m);
    }
  }

  lemma ChecksAreRanked(form: FormValues, phone: PhoneCheck, size: Option<int>)
    ensures Ranked(Checks(form, phone, size))
  {
    var members := TeamChecks(form, size);
    StaticChecksRanked(form, phone);
    forall p | 0 <= p < |members| ensures KeyRank(members[p].key) == p + |StaticRules| {
      MemberCheckRank(form, size.value, p);
    }
    RankedAppend(StaticChecks(form, phone), members);
  }

  /** Ranked checks followed by checks ranked from where they end are ranked. */
  lemma RankedAppend(first: seq<Check>, rest: seq<Check>)
    requires Ranked(first)
    requires forall p | 0 <= p < |rest| :: KeyRank(rest[p].key) == p + |first|
    ensures Ranked(first + rest)
  {
    forall m | 0 <= m < |first + rest| ensures KeyRank((first + rest)[m].key) == m {
      if m >= |first| {
        assert (first + rest)[m] == rest[m - |first|];
      }
    }
  }

  /** The member check at position `p` ranks just after the static checks. */
  lemma MemberCheckRank(form: FormValues, n: int, p: nat)
    requires p < |MemberChecks(form, n)|
    ensures KeyRank(MemberChecks(form, n)[p].key) == p + |StaticRules|
  {
    var i := p / 2 + 2;
    MemberChecksAt(form, n, i);
    if p % 2 == 0 {
      assert p == 2 * (i - 2);
      MemberRank(i, "Name");
    } else {
      assert p == 2 * (i - 2) + 1;
      MemberRank(i, "Email");
    }
  }

  /** Collecting ranked checks gives entries of strictly increasing rank, all below the number of checks. */
  lemma {:induction false} CollectOrdered(cs: seq<Check>)
    requires Ranked(cs)
    ensures forall p | 0 <= p < |Collect(cs)| :: 0 <= KeyRank(Collect(cs)[p].0) < |cs|
    ensures forall p, q | 0 <= p < q < |Collect(cs)| :: KeyRank(Collect(cs)[p].0) < KeyRank(Collect(cs)[q].0)
  {
    if cs != [] {
      var init := cs[..|cs| - 1];
      assert Ranked(init) by {
        forall m | 0 <= m < |init| ensures KeyRank(init[m].key) == m {
          assert init[m] == cs[m];
        }
      }
      CollectOrdered(init);
    }
  }

  /** A key ranked at or beyond the last check has no entry. */
  lemma KeyBeyondChecks(cs: seq<Check>, key: string)
    requires Ranked(cs)
    requires KeyRank(key) >= |cs|
    ensures !HasKey(Collect(cs), key)
  {
    var errors := Collect(cs);
    CollectOrdered(cs);
    forall p | 0 <= p < |errors| ensures errors[p].0 != key {
      assert KeyRank(errors[p].0) < |cs|;
    }
    HasKeyAt(errors, key);
  }

  /** One more check extends the error map by that check's entry, and its key is new. */
  lemma CollectPrefix(cs: seq<Check>, m: nat)
    requires m < |cs|
    ensures Collect(cs[..m + 1]) == Collect(cs[..m]) + Entry(cs[m])
  {
    assert cs[..m + 1][..m] == cs[..m];
  }

  lemma CollectStep(cs: seq<Check>, m: nat)
    requires Ranked(cs)
    requires m < |cs|
    ensures Collect(cs[..m + 1]) == Collect(cs[..m]) + Entry(cs[m])
    ensures !HasKey(Collect(cs[..m]), cs[m].key)
  {
    CollectPrefix(cs, m);
    var init := cs[..m];
    assert Ranked(init) by {
      forall j | 0 <= j < |init| ensures KeyRank(init[j].key) == j {
        assert init[j] == cs[j];
      }
    }
    KeyBeyondChecks(init, cs[m].key);
  }

  /** The error map holds exactly the failed checks: each check's key maps to its message, or is absent. */
  lemma {:induction false} CollectLookup(cs: seq<Check>, m: nat)
    requires Ranked(cs)
    requires m < |cs|
    ensures Lookup(Collect(cs), cs[m].key) == cs[m].error
  {
    var init := cs[..|cs| - 1];
    var last := cs[|cs| - 1];
    assert Ranked(init) by {
      forall j | 0 <= j < |init| ensures KeyRank(init[j].key) == j {
        assert init[j] == cs[j];
      }
    }
    LookupAppend(Collect(init), Entry(last), cs[m].key);
    if m == |cs| - 1 {
      KeyBeyondChecks(init, last.key);
    } else {
      assert init[m] == cs[m];
      CollectLookup(init, m);
      assert last.key != cs[m].key by {
        assert KeyRank(last.key) == |cs| - 1 && KeyRank(cs[m].key) == m;
      }
    }
  }

  // ---------------------------------------------------------------------------
  // What the error map says

  /**
   * Keys appear in validation order: the rule table's order, then member by
   * member index, name before email. In particular no key appears twice.
   */
  lemma FormErrorsOrdered(form: FormValues, phone: PhoneCheck)
    ensures forall p, q | 0 <= p < q < |FormErrors(form, phone)| ::
      KeyRank(FormErrors(form, phone)[p].0) < KeyRank(FormErrors(form, phone)[q].0)
    ensures KeysDistinct(FormErrors(form, phone))
  {
    ChecksAreRanked(form, phone, TeamSize(form));
    CollectOrdered(Checks(form, phone, TeamSize(form)));
  }

  /** A static field has an entry exactly when `validateField` rejects it, and the entry is that reason's message. */
  lemma StaticFieldEntry(form: FormValues, phone: PhoneCheck, k: nat)
    requires k < |StaticRules|
    ensures Lookup(FormErrors(form, phone), StaticRules[k].0) ==
      match ValidateField(Get(form, StaticRules[k].0), StaticRules[k].1, phone)
      case Some(e) => Some(Message(e))
      case None => None
  {
    var cs := Checks(form, phone, TeamSize(form));
    ChecksAreRanked(form, phone, TeamSize(form));
    assert cs[k] == StaticChecks(form, phone)[k];
    CollectLookup(cs, k);
  }

  /**
   * Member `i` (from 2 on) is checked exactly when `parseInt` of the team size
   * gives a number `n` with `i <= n`; otherwise its fields have no entry.
   */
  lemma MemberEntries(form: FormValues, phone: PhoneCheck, i: nat)
    requires i >= 2
    ensures Lookup(FormErrors(form, phone), MemberField(i, "Name")) ==
      if TeamSize(form).Some? && i <= TeamSize(form).value then MemberNameCheck(form, i).error else None
    ensures Lookup(FormErrors(form, phone), MemberField(i, "Email")) ==
      if TeamSize(form).Some? && i <= TeamSize(form).value then MemberEmailCheck(form, i).error else None
  {
    MemberEntriesFor(form, phone, TeamSize(form), i);
  }

  lemma MemberEntriesFor(form: FormValues, phone: PhoneCheck, size: Option<int>, i: nat)
    requires i >= 2
    ensures Lookup(Collect(Checks(form, phone, size)), MemberField(i, "Name")) ==
      if size.Some? && i <= size.value then MemberNameCheck(form, i).error else None
    ensures Lookup(Collect(Checks(form, phone, size)), MemberField(i, "Email")) ==
      if size.Some? && i <= size.value then MemberEmailCheck(form, i).error else None
  {
    if size.Some? && i <= size.value {
      MemberEntriesChecked(form, phone, size.value, i);
    } else {
      MemberEntriesUnchecked(form, phone, size, i);
    }
  }

  /** A member within the team size has its two checks' outcomes as entries. */
  lemma MemberEntriesChecked(form: FormValues, phone: PhoneCheck, n: int, i: nat)
    requires 2 <= i <= n
    ensures Lookup(Collect(Checks(form, phone, Some(n))), MemberField(i, "Name")) == MemberNameCheck(form, i).error
    ensures Lookup(Collect(Checks(form, phone, Some(n))), MemberField(i, "Email")) == MemberEmailCheck(form, i).error
  {
    var cs := Checks(form, phone, Some(n));
    var at := |StaticRules| + 2 * (i - 2);
    ChecksAreRanked(form, phone, Some(n));
    MemberChecksInPlace(form, phone, n, i);
    CollectLookup(cs, at);
    CollectLookup(cs, at + 1);
  }

  /** A member beyond the team size, or any member when it does not parse, has no entry. */
  lemma MemberEntriesUnchecked(form: FormValues, phone: PhoneCheck, size: Option<int>, i: nat)
    requires i >= 2
    requires !(size.Some? && i <= size.value)
    ensures !HasKey(Collect(Checks(form, phone, size)), MemberField(i, "Name"))
    ensures !HasKey(Collect(Checks(form, phone, size)), MemberField(i, "Email"))
  {
    var cs := Checks(form, phone, size);
    ChecksAreRanked(form, phone, size);
    assert |cs| <= 2 * i + 3;
    MemberRank(i, "Name");
    MemberRank(i, "Email");
    KeyBeyondChecks(cs, MemberField(i, "Name"));
    KeyBeyondChecks(cs, MemberField(i, "Email"));
  }

  /** Member `i`'s name and email were left blank: absent, empty or whitespace only. */
  predicate MemberLeftBlank(form: FormValues, i: nat) {
    !ValidateRequired(Get(form, MemberField(i, "Name"))) && !ValidateRequired(Get(form, MemberField(i, "Email")))
  }

  /** The two "required" entries of every member 2..n, in order. */
  function MissingEntries(n: int): (r: ErrorMap)
    ensures |r| == if n < 2 then 0 else 2 * (n - 1)
    decreases n
  {
    if n < 2 then [] else
      var name := (MemberField(n, "Name"), "Team member name is required");
      var email := (MemberField(n, "Email"), "Team member email is required");
      MissingEntries(n - 1) + [name, email]
  }

  /**
   * When every member field 2..n was left blank, each member adds
   * exactly its two "required" messages, name before email.
   */
  lemma {:induction false} MembersAllMissing(form: FormValues, n: int)
    requires forall i | 2 <= i <= n :: MemberLeftBlank(form, i)
    ensures Collect(MemberChecks(form, n)) == MissingEntries(n)
    decreases n
  {
    if n >= 2 {
      var last := [MemberNameCheck(form, n), MemberEmailCheck(form, n)];
      MembersAllMissing(form, n - 1);
      CollectAppend(MemberChecks(form, n - 1), last);
      CollectPair(last);
      MissingMember(form, n);
      assert Collect(last) == MissingEntries(n)[2 * (n - 2)..];
      assert MissingEntries(n) == MissingEntries(n - 1) + MissingEntries(n)[2 * (n - 2)..];
    }
  }

  /**
   * A form whose team size parses to `n` but whose member fields are all
   * left blank (as the rendered but unfilled inputs submit them) gets the static fields' entries followed by the two "required"
   * messages of each member 2..n.
   */
  lemma EmptyMemberFields(form: FormValues, phone: PhoneCheck)
    requires TeamSize(form).Some?
    requires forall i | 2 <= i <= TeamSize(form).value :: MemberLeftBlank(form, i)
    ensures FormErrors(form, phone) == Collect(StaticChecks(form, phone)) + MissingEntries(TeamSize(form).value)
  {
    var n := TeamSize(form).value;
    MembersAllMissing(form, n);
    CollectAppend(StaticChecks(form, phone), MemberChecks(form, n));
  }

  /** A member whose two fields are blank gets both "required" messages. */
  lemma MissingMember(form: FormValues, i: nat)
    requires MemberLeftBlank(form, i)
    ensures Entry(MemberNameCheck(form, i)) == [(MemberField(i, "Name"), "Team member name is required")]
    ensures Entry(MemberEmailCheck(form, i)) == [(MemberField(i, "Email"), "Team member email is required")]
  {
  }

  lemma CollectPair(cs: seq<Check>)
    requires |cs| == 2
    ensures Collect(cs) == Entry(cs[0]) + Entry(cs[1])
  {
    assert cs[..1][..0] == [];
    assert Collect(cs[..1]) == Entry(cs[0]);
    assert cs[..|cs| - 1] == cs[..1];
  }

  lemma {:induction false} CollectAppend(a: seq<Check>, b: seq<Check>)
    ensures Collect(a + b) == Collect(a) + Collect(b)
  {
    if b == [] {
      assert a + b == a;
    } else {
      assert (a + b)[..|a + b| - 1] == a + b[..|b| - 1];
      CollectAppend(a, b[..|b| - 1]);
    }
  }
}
