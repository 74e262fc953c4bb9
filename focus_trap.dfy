/**
 * The site-wide `trapFocus`: keyboard focus is kept inside a container (the
 * registration modal) by wrapping Tab from its last focusable element to the
 * first, and Shift+Tab from the first to the last. The container's focusable
 * elements, in document order, are numbered from 0; focus is either on one of
 * them or somewhere else.
 */
module FocusTrap {
  import opened Wrappers

  /** A `keydown` event: its `key` and whether Shift was held. */
  datatype KeyPress = KeyPress(key: string, shift: bool)

  /**
   * Where the `keydown` listener moves focus, if it does anything at all
   * (when it does, it also cancels the browser's own move).
   */
  function Intervention(count: nat, active: Option<nat>, e: KeyPress): (r: Option<nat>)
    ensures r.Some? ==> r.value < count
  {
    if e.key == "Tab" && count > 0 && active.Some? then
      if e.shift && active.value == 0 then Some(count - 1)
      else if !e.shift && active.value == count - 1 then Some(0)
      else None
    else None
  }

  class FocusScope {
    /** The number of focusable elements the listener found. */
    const count: nat
    /** The focused element's number, or `None` when focus is elsewhere. */
    var active: Option<nat>

    constructor (count: nat, active: Option<nat>)
      ensures this.count == count && this.active == active
    {
      this.count := count;
      this.active := active;
    }

    /** The last statement of `trapFocus`: focus the first element, if there is one. */
    method FocusFirst()
      modifies this
      ensures active == if count > 0 then Some(0) else old(active)
    {
      if count > 0 {
        active := Some(0);
      }
    }

    /**
     * The `keydown` listener. `prevented` says whether it cancelled the
     * browser's default move; when it does not, focus is left as it was.
     */
    method KeyDown(e: KeyPress) returns (prevented: bool)
      modifies this
      ensures prevented <==> Intervention(count, old(active), e).Some?
      ensures active == if prevented then Intervention(count, old(active), e) else old(active)
    {
      prevented := false;
      if e.key == "Tab" {
        if e.shift {
          if count > 0 && active == Some(0) {
            active := Some(count - 1);
            prevented := true;
          }
        } else {
          if count > 0 && active == Some(count - 1) {
            active := Some(0);
            prevented := true;
          }
        }
      }
    }
  }

  /**
   * Focus after a key press: the listener's move when it makes one;
   * otherwise the browser's, which for Tab goes to the next element in
   * order and for Shift+Tab to the previous one.
   */
  function NextFocus(count: nat, i: nat, e: KeyPress): int {
    match Intervention(count, Some(i), e)
    case Some(j) => j
    case None => if e.key != "Tab" then i else if e.shift then i - 1 else i + 1
  }

  // ---------------------------------------------------------------------------
  // Properties

  /** Tab on the last element goes to the first. */
  lemma TabFromLastWraps(count: nat)
    requires count > 0
    ensures Intervention(count, Some(count - 1), KeyPress("Tab", false)) == Some(0)
  {
  }

  /** Shift+Tab on the first element goes to the last. */
  lemma ShiftTabFromFirstWraps(count: nat)
    requires count > 0
    ensures Intervention(count, Some(0), KeyPress("Tab", true)) == Some(count - 1)
  {
  }

  /** The listener steps in only at the two ends, and only for Tab. */
  lemma InterventionOnlyAtEnds(count: nat, active: Option<nat>, e: KeyPress)
    ensures Intervention(count, active, e).Some? <==>
      && e.key == "Tab" && count > 0 && active.Some?
      && (if e.shift then active.value == 0 else active.value == count - 1)
  {
  }

  /** Whatever the key, focus that starts inside the container stays inside it. */
  lemma FocusStaysInside(count: nat, i: nat, e: KeyPress)
    requires i < count
    ensures 0 <= NextFocus(count, i, e) < count
  {
  }
}
