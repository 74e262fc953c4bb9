/**
 * The loading state of a submit button: `showLoading` and `hideLoading`.
 * The site-wide helpers save the button's text and `disabled` flag, show
 * "Loading..." on a disabled button with the `loading` class, and put the
 * saved values back. The competitions page also declares placeholder
 * versions that leave the button alone.
 */
module Loading {
  import opened Wrappers

  const LoadingText := "Loading..."

  class Button {
    var text: string
    var disabled: bool
    /** The button's class list, as a set of class names. */
    var classes: set<string>

    constructor (text: string, disabled: bool, classes: set<string>)
      ensures this.text == text && this.disabled == disabled && this.classes == classes
    {
      this.text := text;
      this.disabled := disabled;
      this.classes := classes;
    }
  }

  /** What `showLoading` hands back so that `hideLoading` can restore the button. */
  datatype LoadingState = LoadingState(originalText: string, originalDisabled: bool)

  /** The button as the saved state restores it. */
  predicate RestoredFrom(text: string, disabled: bool, s: LoadingState) {
    text == s.originalText && disabled == s.originalDisabled
  }

  /** `showLoading`: no button gives no state; otherwise the button shows the loading look. */
  method ShowLoading(button: Button?) returns (state: Option<LoadingState>)
    modifies button
    ensures button == null ==> state == None
    ensures button != null ==>
      && state == Some(LoadingState(old(button.text), old(button.disabled)))
      && button.text == LoadingText
      && button.disabled
      && button.classes == old(button.classes) + {"loading"}
  {
    if button == null {
      return None;
    }
    state := Some(LoadingState(button.text, button.disabled));
    button.text := LoadingText;
    button.disabled := true;
    button.classes := button.classes + {"loading"};
  }

  /** `hideLoading`: with a button and a state, the saved text and flag come back and `loading` goes. */
  method HideLoading(button: Button?, state: Option<LoadingState>)
    modifies button
    ensures button != null && state.None? ==> unchanged(button)
    ensures button != null && state.Some? ==>
      && RestoredFrom(button.text, button.disabled, state.value)
      && button.classes == old(button.classes) - {"loading"}
  {
    if button == null || state.None? {
      return;
    }
    button.text := state.value.originalText;
    button.disabled := state.value.originalDisabled;
    button.classes := button.classes - {"loading"};
  }

  /**
   * Showing then hiding the loading state gives the button back its text and
   * its `disabled` flag; only the `loading` class is gone, even if it was
   * there before.
   */
  method ShowThenHide(button: Button?)
    modifies button
    ensures button != null ==>
      && button.text == old(button.text)
      && button.disabled == old(button.disabled)
      && button.classes == old(button.classes) - {"loading"}
  {
    var state := ShowLoading(button);
    HideLoading(button, state);
  }

  /** The competitions page's `showLoading`: a fixed token, the button untouched. */
  method ShowLoadingPlaceholder(button: Button?) returns (state: string)
    ensures state == "loadingState"
  {
    state := "loadingState";
  }
}
