/**
 * The field predicates. Both scripts declare `validateRequired`,
 * `validateEmail` and `validatePhone` at top level; which declaration is in
 * force depends on the order the pages load them, so each variant is modelled
 * under its own name and the lemmas say where they agree.
 *
 * A form value is `Option<string>`: `FormData.get` yields `null` for a
 * missing field.
 */
module Validators {
  import opened Wrappers
  import opened Text

  // ---------------------------------------------------------------------------
  // validateRequired

  /** competitions.js: `value !== null && value !== undefined && value.trim() !== ""`. */
  function ValidateRequired(value: Option<string>): (r: bool)
    ensures r <==> value.Some? && exists k | 0 <= k < |value.value| :: !IsSpace(value.value[k])
  {
    value.Some? && Trim(value.value) != ""
  }

  /**
   * global.js: `value && value.trim().length > 0`. It yields `null` or `""` for
   * those inputs rather than `false`; only its truth value is kept here.
   */
  function ValidateRequiredTruthy(value: Option<string>): (r: bool)
    ensures r <==> value.Some? && !AllSpace(value.value)
  {
    value.Some? && value.value != "" && |Trim(value.value)| > 0
  }

  /** The two `validateRequired` declarations accept exactly the same values. */
  lemma RequiredVariantsAgree(value: Option<string>)
    ensures ValidateRequiredTruthy(value) == ValidateRequired(value)
  {
  }

  // ---------------------------------------------------------------------------
  // validateEmail: /^[^\s@]+@[^\s@]+\.[^\s@]+$/

  /** A run matched by `[^\s@]*`: no whitespace and no `@`. */
  predicate PlainRun(s: string) {
    forall k | 0 <= k < |s| :: !IsSpace(s[k]) && s[k] != '@'
  }

  /**
   * The pattern read as a split of the whole string: a non-empty local part,
   * `@`, a non-empty run, a literal `.`, a non-empty run, and nothing else.
   * The runs may themselves contain dots, so any split point will do.
   */
  ghost predicate MatchesEmailPattern(s: string) {
    exists i, j | 0 < i < |s| && i + 1 < j < |s| - 1 ::
      && s[i] == '@' && s[j] == '.'
      && PlainRun(s[..i]) && PlainRun(s[i + 1..j]) && PlainRun(s[j + 1..])
  }

  /** No character of `s` is whitespace. */
  predicate NoSpace(s: string) {
    forall k | 0 <= k < |s| :: !IsSpace(s[k])
  }

  /** Position `i` holds the only `@` of `s`. */
  predicate SoleAt(s: string, i: nat) {
    0 <= i < |s| && s[i] == '@' && forall k | 0 <= k < |s| && k != i :: s[k] != '@'
  }

  /** Some `.` after position `i + 1` that is not the last character. */
  predicate DotAfter(s: string, i: nat) {
    exists j | i + 1 < j < |s| - 1 :: s[j] == '.'
  }

  /**
   * competitions.js `validateEmail`, written out by hand: no whitespace,
   * exactly one `@`, something before it, and a `.` after it that is neither
   * the first nor the last character of the domain.
   */
  function ValidateEmail(email: string): (r: bool)
    ensures r ==> |email| >= 5
  {
    NoSpace(email) && exists i: nat | 0 < i < |email| :: SoleAt(email, i) && DotAfter(email, i)
  }

  /** global.js `validateEmail`: the same pattern, tested on `email.toLowerCase()`. */
  function ValidateEmailLowercased(email: string): (r: bool)
    ensures r ==> |email| >= 5
  {
    ValidateEmail(Lower(email))
  }

  /** The hand-written check accepts exactly the strings the regular expression matches. */
  lemma EmailCheckMatchesPattern(s: string)
    ensures ValidateEmail(s) <==> MatchesEmailPattern(s)
  {
    if ValidateEmail(s) {
      EmailCheckSound(s);
    }
    if MatchesEmailPattern(s) {
      EmailCheckComplete(s);
    }
  }

  /** A slice of characters that are neither whitespace nor `@` is a plain run. */
  lemma PlainRunSlice(s: string, lo: nat, hi: nat)
    requires lo <= hi <= |s|
    requires forall k | lo <= k < hi :: !IsSpace(s[k]) && s[k] != '@'
    ensures PlainRun(s[lo..hi])
  {
    forall k | 0 <= k < hi - lo ensures !IsSpace(s[lo..hi][k]) && s[lo..hi][k] != '@' {
      assert s[lo..hi][k] == s[lo + k];
    }
  }

  lemma EmailCheckSound(s: string)
    requires ValidateEmail(s)
    ensures MatchesEmailPattern(s)
  {
    var i: nat :| 0 < i < |s| && SoleAt(s, i) && DotAfter(s, i);
    var j :| i + 1 < j < |s| - 1 && s[j] == '.';
    PlainRunSlice(s, 0, i);
    PlainRunSlice(s, i + 1, j);
    PlainRunSlice(s, j + 1, |s|);
    assert s[..i] == s[0..i];
  }

  lemma EmailCheckComplete(s: string)
    requires MatchesEmailPattern(s)
    ensures ValidateEmail(s)
  {
    var i, j :| 0 < i < |s| && i + 1 < j < |s| - 1
      && s[i] == '@' && s[j] == '.'
      && PlainRun(s[..i]) && PlainRun(s[i + 1..j]) && PlainRun(s[j + 1..]);
    forall k | 0 <= k < |s| && k != i ensures !IsSpace(s[k]) && s[k] != '@' {
      if k < i {
        assert s[k] == s[..i][k];
      } else if k < j {
        assert s[k] == s[i + 1..j][k - i - 1];
      } else if j < k {
        assert s[k] == s[j + 1..][k - j - 1];
      }
    }
    assert !IsSpace(s[i]);
    assert SoleAt(s, i) && DotAfter(s, i);
  }

  /** Lowering the address first never changes the verdict. */
  lemma EmailVariantsAgree(email: string)
    ensures ValidateEmailLowercased(email) == ValidateEmail(email)
  {
    var low := Lower(email);
    if ValidateEmail(email) {
      var i: nat :| 0 < i < |email| && SoleAt(email, i) && DotAfter(email, i);
      var j :| i + 1 < j < |email| - 1 && email[j] == '.';
      assert low[i] == '@' && low[j] == '.';
      assert SoleAt(low, i) && DotAfter(low, i);
    }
    if ValidateEmail(low) {
      var i: nat :| 0 < i < |low| && SoleAt(low, i) && DotAfter(low, i);
      var j :| i + 1 < j < |low| - 1 && low[j] == '.';
      assert email[i] == '@' && email[j] == '.';
      assert SoleAt(email, i) && DotAfter(email, i);
    }
  }

  /** An address with the shape `local@domain.tld` passes; one without `@` or without a later `.` fails. */
  lemma EmailExamples(s: string)
    ensures ValidateEmail("a@b.co")
    ensures (forall k | 0 <= k < |s| :: s[k] != '@') ==> !ValidateEmail(s)
    ensures (forall k | 0 <= k < |s| :: s[k] != '.') ==> !ValidateEmail(s)
  {
    var e := "a@b.co";
    assert e[1] == '@' && e[3] == '.';
    assert forall k | 0 <= k < |e| && k != 1 :: e[k] != '@';
    assert SoleAt(e, 1) && DotAfter(e, 1);
  }

  // ---------------------------------------------------------------------------
  // validatePhone

  /** `phone.replace(/\D/g, "")`: the digits of `phone`, in order. */
  function StripNonDigits(s: string): (r: string)
    ensures |r| <= |s|
    ensures forall k | 0 <= k < |r| :: IsDigit(r[k])
  {
    if s == [] then [] else (if IsDigit(s[0]) then [s[0]] else []) + StripNonDigits(s[1..])
  }

  /** global.js: between 10 and 15 digits, whatever else the text holds. */
  function ValidatePhone(phone: string): (r: bool)
    ensures r ==> |phone| >= 10
  {
    var digits := StripNonDigits(phone);
    |digits| >= 10 && |digits| <= 15
  }

  /** competitions.js: a placeholder that accepts every input. */
  function ValidatePhonePlaceholder(phone: string): (r: bool)
    ensures r
  {
    true
  }

  lemma {:induction false} StripNonDigitsAppend(a: string, b: string)
    ensures StripNonDigits(a + b) == StripNonDigits(a) + StripNonDigits(b)
  {
    if a != [] {
      assert (a + b)[1..] == a[1..] + b;
      StripNonDigitsAppend(a[1..], b);
    } else {
      assert a + b == b;
    }
  }

  /** A string of digits only is kept whole. */
  lemma {:induction false} StripNonDigitsOfDigits(s: string)
    requires forall k | 0 <= k < |s| :: IsDigit(s[k])
    ensures StripNonDigits(s) == s
  {
    if s != [] {
      StripNonDigitsOfDigits(s[1..]);
    }
  }

  /** Separators, spaces and letters are ignored: inserting a non-digit never changes the verdict. */
  lemma PhoneIgnoresNonDigits(a: string, c: char, b: string)
    requires !IsDigit(c)
    ensures StripNonDigits(a + [c] + b) == StripNonDigits(a + b)
    ensures ValidatePhone(a + [c] + b) == ValidatePhone(a + b)
  {
    StripNonDigitsAppend(a + [c], b);
    StripNonDigitsAppend(a, [c]);
    StripNonDigitsAppend(a, b);
    assert StripNonDigits([c]) == [];
  }

  /** On a run of digits the verdict is the length bound: 10 and 15 pass, 9 and 16 fail. */
  lemma PhoneDigitBounds(s: string)
    requires forall k | 0 <= k < |s| :: IsDigit(s[k])
    ensures ValidatePhone(s) <==> 10 <= |s| <= 15
  {
    StripNonDigitsOfDigits(s);
  }
}
