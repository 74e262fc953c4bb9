/**
 * How the registration form shows validation errors: `clearFormErrors`,
 * `displayFormErrors` and the live per-field check `handleFormInput` (which
 * also serves as the blur handler). The page is reduced to what these
 * functions read and write: the text and `show` class of each
 * `#<field>-error` element, the `aria-invalid`/`error` marking of each input,
 * and which input has focus.
 */
module ErrorPresenter {
  import opened Wrappers
  import opened FieldRules
  import opened FormValidator

  /** The message an error map holds for `f`, or the empty text. */
  function MessageFor(errors: ErrorMap, f: string): string {
    match Lookup(errors, f)
    case Some(m) => m
    case None => ""
  }

  /** The text of every error element once `errors` is displayed. */
  function DisplayedMessages(slots: set<string>, errors: ErrorMap): (r: map<string, string>)
    ensures r.Keys == slots
  {
    map f | f in slots :: MessageFor(errors, f)
  }

  /** The elements among `names` that an error map marks. */
  function Flagged(names: set<string>, errors: ErrorMap): (r: set<string>)
    ensures r <= names
  {
    set f | f in names && HasKey(errors, f)
  }

  /**
   * Where focus ends up: on the first key's input when that key is a
   * non-empty string naming an input of the form, otherwise where it was.
   */
  function FocusAfter(errors: ErrorMap, inputs: set<string>, before: Option<string>): (r: Option<string>)
    ensures errors == [] ==> r == before
    ensures r != before ==> errors != [] && r == Some(errors[0].0) && errors[0].0 in inputs
    ensures errors != [] && errors[0].0 != "" && errors[0].0 in inputs ==> r == Some(errors[0].0)
  {
    if errors != [] && errors[0].0 != "" && errors[0].0 in inputs then Some(errors[0].0) else before
  }

  class FormView {
    /** The ids of the form's inputs, selects and text areas. */
    const inputs: set<string>
    /** The fields `f` with an `#f-error` element; these are the form's `.error-message` elements. */
    const errorSlots: set<string>
    /** The text of each error element. */
    var messages: map<string, string>
    /** The error elements carrying the `show` class. */
    var shown: set<string>
    /** The fields marked `aria-invalid="true"` with the `error` class; the two always change together. */
    var invalid: set<string>
    var focused: Option<string>

    ghost predicate Valid()
      reads this
    {
      messages.Keys == errorSlots && shown <= errorSlots
    }

    /** A form with no error shown. */
    constructor (inputs: set<string>, errorSlots: set<string>)
      ensures this.inputs == inputs && this.errorSlots == errorSlots
      ensures messages == DisplayedMessages(errorSlots, []) && shown == {} && invalid == {} && focused == None
      ensures Valid()
    {
      this.inputs := inputs;
      this.errorSlots := errorSlots;
      messages := map f | f in errorSlots :: "";
      shown := {};
      invalid := {};
      focused := None;
    }

    /** `clearFormErrors`: every error element emptied and hidden, every input unmarked. */
    method Clear()
      modifies this
      ensures messages == DisplayedMessages(errorSlots, []) && shown == {} && invalid == {}
      ensures focused == old(focused)
      ensures Valid()
    {
      messages := map f | f in errorSlots :: "";
      shown := {};
      invalid := {};
    }

    /**
     * `displayFormErrors`: after clearing, each entry's message goes into its
     * field's error element, which is shown, and its input is marked; then
     * the first key's input takes focus.
     */
    method Display(errors: ErrorMap)
      requires KeysDistinct(errors)
      modifies this
      ensures messages == DisplayedMessages(errorSlots, errors)
      ensures shown == Flagged(errorSlots, errors)
      ensures invalid == Flagged(inputs, errors)
      ensures focused == FocusAfter(errors, inputs, old(focused))
      ensures Valid()
    {
      Clear();
      for p := 0 to |errors|
        invariant messages == DisplayedMessages(errorSlots, errors[..p])
        invariant shown == Flagged(errorSlots, errors[..p])
        invariant invalid == Flagged(inputs, errors[..p])
        invariant focused == old(focused)
      {
        var (field, message) := errors[p];
        DisplayStep(errorSlots, errors, p);
        FlagStep(errorSlots, errors, p);
        FlagStep(inputs, errors, p);
        if field in errorSlots {
          messages := messages[field := message];
          shown := shown + {field};
        }
        if field in inputs {
          invalid := invalid + {field};
        }
      }
      assert errors[..|errors|] == errors;
      if errors != [] && errors[0].0 != "" && errors[0].0 in inputs {
        focused := Some(errors[0].0);
      }
    }

    /**
     * `handleFormInput` for the field `name` holding `value`: a field without
     * rules, or without an error element, is left alone; otherwise its error
     * element and marking follow `validateField`.
     */
    method HandleInput(name: string, value: string, phone: PhoneCheck)
      requires Valid()
      modifies this
      ensures GetValidationRules(name).None? || name !in errorSlots ==>
        messages == old(messages) && shown == old(shown) && invalid == old(invalid)
      ensures GetValidationRules(name).Some? && name in errorSlots ==>
        var error := ValidateField(Some(value), GetValidationRules(name).value, phone);
        && messages == old(messages)[name := if error.Some? then Message(error.value) else ""]
        && shown == (if error.Some? then old(shown) + {name} else old(shown) - {name})
        && invalid == (if error.Some? then old(invalid) + {name} else old(invalid) - {name})
      ensures focused == old(focused)
      ensures Valid()
    {
      var rules := GetValidationRules(name);
      if rules.None? {
        return;
      }
      var error := ValidateField(Some(value), rules.value, phone);
      if name in errorSlots {
        if error.Some? {
          messages := messages[name := Message(error.value)];
          shown := shown + {name};
          invalid := invalid + {name};
        } else {
          messages := messages[name := ""];
          shown := shown - {name};
          invalid := invalid - {name};
        }
      }
    }
  }

  /** Appending one entry with a fresh key adds that key and its message and changes nothing else. */
  lemma PrefixStep(errors: ErrorMap, p: nat)
    requires KeysDistinct(errors)
    requires p < |errors|
    ensures forall f :: HasKey(errors[..p + 1], f) <==> HasKey(errors[..p], f) || f == errors[p].0
    ensures forall f :: MessageFor(errors[..p + 1], f) == if f == errors[p].0 then errors[p].1 else MessageFor(errors[..p], f)
  {
    var prefix := errors[..p];
    assert errors[..p + 1] == prefix + [errors[p]];
    assert !HasKey(prefix, errors[p].0) by {
      forall q | 0 <= q < |prefix| ensures prefix[q].0 != errors[p].0 {
        assert prefix[q] == errors[q];
      }
      HasKeyAt(prefix, errors[p].0);
    }
    forall f ensures HasKey(prefix + [errors[p]], f) <==> HasKey(prefix, f) || f == errors[p].0 {
      HasKeyAt(prefix, f);
      HasKeyAt(prefix + [errors[p]], f);
      if HasKey(prefix, f) {
        var q :| 0 <= q < |prefix| && prefix[q].0 == f;
        assert (prefix + [errors[p]])[q].0 == f;
      }
      assert (prefix + [errors[p]])[|prefix|] == errors[p];
    }
    forall f ensures MessageFor(prefix + [errors[p]], f) == if f == errors[p].0 then errors[p].1 else MessageFor(prefix, f) {
      LookupAppend(prefix, [errors[p]], f);
    }
  }

  /** Displaying one more entry writes its message into its field's element, if there is one. */
  lemma DisplayStep(slots: set<string>, errors: ErrorMap, p: nat)
    requires KeysDistinct(errors)
    requires p < |errors|
    ensures DisplayedMessages(slots, errors[..p + 1]) ==
      if errors[p].0 in slots then DisplayedMessages(slots, errors[..p])[errors[p].0 := errors[p].1]
      else DisplayedMessages(slots, errors[..p])
  {
    PrefixStep(errors, p);
  }

  /** Displaying one more entry marks its field's element, if there is one. */
  lemma FlagStep(names: set<string>, errors: ErrorMap, p: nat)
    requires KeysDistinct(errors)
    requires p < |errors|
    ensures Flagged(names, errors[..p + 1]) ==
      if errors[p].0 in names then Flagged(names, errors[..p]) + {errors[p].0} else Flagged(names, errors[..p])
  {
    PrefixStep(errors, p);
  }

  /**
   * After the submit handler displays the validator's error map, a static
   * field's error element is shown exactly when `validateField` rejects the
   * field, and then it reads that reason's message.
   */
  lemma DisplayedStaticField(form: FormValues, phone: PhoneCheck, slots: set<string>, k: nat)
    requires k < |StaticRules|
    requires StaticRules[k].0 in slots
    ensures var error := ValidateField(Get(form, StaticRules[k].0), StaticRules[k].1, phone);
      && (StaticRules[k].0 in Flagged(slots, FormErrors(form, phone)) <==> error.Some?)
      && DisplayedMessages(slots, FormErrors(form, phone))[StaticRules[k].0] ==
           if error.Some? then Message(error.value) else ""
  {
    StaticFieldEntry(form, phone, k);
  }

  /**
   * The live check and the submit check can disagree on a member name: the
   * live check applies the minimum length of 2, the submit check only asks
   * for a value. "a" is flagged while typing and accepted on submit.
   */
  lemma MemberNameChecksDisagree(phone: PhoneCheck)
    ensures GetValidationRules(MemberField(2, "Name")) == Some(NameRules)
    ensures ValidateField(Some("a"), NameRules, phone) == Some(TooShort(2))
    ensures MemberNameCheck(map[MemberField(2, "Name") := "a"], 2).error == None
  {
    MemberNameFieldRules(2);
    MinLengthExamples(phone);
    var form := map[MemberField(2, "Name") := "a"];
    assert Get(form, MemberField(2, "Name")) == Some("a");
    assert !Text.IsSpace('a') && "a"[0] == 'a';
  }
}
