/**
 * The registration form's submit handler, `handleFormSubmission`, with the
 * end of `validateRegistrationForm` (displaying its error map) and with the
 * 2000 ms timer run to completion. Top-level functions declared in both
 * scripts are replaced as a group by whichever script loads last, so one
 * choice of `Helpers` decides the phone check, the loading helpers and the
 * storage helpers together.
 */
module Submission {
  import opened FieldRules
  import opened FormValidator
  import opened ErrorPresenter
  import opened Loading
  import opened Storage
  import opened Drafts

  /** The `validatePhone` each group of helpers brings. */
  function PhoneFor(helpers: Helpers): PhoneCheck {
    if helpers == SiteWide then DigitCount else Placeholder
  }

  /**
   * `validateRegistrationForm` as a whole: the error map is computed, then
   * displayed, and the verdict returned.
   */
  method ValidateAndDisplay(form: FormValues, phone: PhoneCheck, view: FormView) returns (isValid: bool)
    modifies view
    ensures isValid <==> FormErrors(form, phone) == []
    ensures view.messages == DisplayedMessages(view.errorSlots, FormErrors(form, phone))
    ensures view.shown == Flagged(view.errorSlots, FormErrors(form, phone))
    ensures view.invalid == Flagged(view.inputs, FormErrors(form, phone))
    ensures view.focused == FocusAfter(FormErrors(form, phone), view.inputs, old(view.focused))
  {
    var errors;
    isValid, errors := ValidateRegistrationForm(form, phone);
    FormErrorsOrdered(form, phone);
    view.Display(errors);
  }

  /**
   * The rest of `handleFormSubmission` for a valid form: the loading state
   * is shown; then, in the timer callback, the button is restored and a
   * draft of the form is saved at time `savedAt`.
   */
  method CompleteSubmission(
    form: FormValues, button: Button?, store: Store<Backup>,
    competition: string, savedAt: int, fails: bool, helpers: Helpers)
    modifies button, store
    ensures store.items == if fails then old(store.items) else Saved(old(store.items), competition, form, savedAt)
    ensures button != null ==>
      && button.text == old(button.text)
      && button.disabled == old(button.disabled)
      && button.classes == if helpers == SiteWide then old(button.classes) - {"loading"} else old(button.classes)
  {
    if helpers == SiteWide {
      var state := ShowLoading(button);
      HideLoading(button, state);
    } else {
      var _ := ShowLoadingPlaceholder(button);
    }
    SaveFormDataToStorage(store, competition, form, savedAt, fails, helpers);
  }

  /**
   * `handleFormSubmission`. The form is validated and its errors displayed;
   * an invalid form stops there, before any loading state or storage. A
   * valid one shows the loading state, and when the timer fires the button
   * is restored and a draft is saved. The toast, closing the modal and the
   * analytics event are not modelled.
   */
  method HandleFormSubmission(
    form: FormValues, view: FormView, button: Button?, store: Store<Backup>,
    competition: string, savedAt: int, fails: bool, helpers: Helpers)
    returns (submitted: bool)
    modifies view, button, store
    ensures submitted <==> FormErrors(form, PhoneFor(helpers)) == []
    ensures view.messages == DisplayedMessages(view.errorSlots, FormErrors(form, PhoneFor(helpers)))
    ensures view.shown == Flagged(view.errorSlots, FormErrors(form, PhoneFor(helpers)))
    ensures view.invalid == Flagged(view.inputs, FormErrors(form, PhoneFor(helpers)))
    ensures view.focused == FocusAfter(FormErrors(form, PhoneFor(helpers)), view.inputs, old(view.focused))
    ensures !submitted ==> unchanged(store) && (button != null ==> unchanged(button))
    ensures submitted ==>
      store.items == if fails then old(store.items) else Saved(old(store.items), competition, form, savedAt)
    ensures submitted && button != null ==>
      && button.text == old(button.text)
      && button.disabled == old(button.disabled)
      && button.classes == if helpers == SiteWide then old(button.classes) - {"loading"} else old(button.classes)
  {
    submitted := ValidateAndDisplay(form, PhoneFor(helpers), view);
    if !submitted {
      return;
    }
    CompleteSubmission(form, button, store, competition, savedAt, fails, helpers);
  }
}
