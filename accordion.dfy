/**
 * The rules accordion: `toggleAccordion`, `openAccordionItem`,
 * `closeAccordionItem` and the closing pass of `initializeAccordion`. The
 * page's `.accordion-item` elements, in document order, are an array of
 * panels; a header is named by its item's index.
 */
module Accordion {

  /**
   * One accordion item: its `active` class, the icon text, the content's
   * `max-height` in pixels (the string "0" when closed), the header's
   * `aria-expanded` and the content's `aria-hidden`. `scrollHeight` is the
   * content's laid-out height, which the scripts read and never change.
   */
  datatype Panel = Panel(
    active: bool,
    icon: string,
    maxHeight: nat,
    scrollHeight: nat,
    ariaExpanded: string,
    ariaHidden: string)

  /** What `openAccordionItem` leaves behind. */
  function Opened(p: Panel): (r: Panel)
    ensures r.active && r.scrollHeight == p.scrollHeight
  {
    p.(active := true, icon := "×", maxHeight := p.scrollHeight, ariaExpanded := "true", ariaHidden := "false")
  }

  /** What `closeAccordionItem` leaves behind. */
  function Closed(p: Panel): (r: Panel)
    ensures !r.active && r.scrollHeight == p.scrollHeight
  {
    p.(active := false, icon := "+", maxHeight := 0, ariaExpanded := "false", ariaHidden := "true")
  }

  /** The icon and the ARIA attributes agree with the `active` class. */
  predicate Consistent(p: Panel) {
    if p.active then p.icon == "×" && p.ariaExpanded == "true" && p.ariaHidden == "false"
    else p.icon == "+" && p.ariaExpanded == "false" && p.ariaHidden == "true"
  }

  predicate AtMostOneActive(s: seq<Panel>) {
    forall j, k | 0 <= j < k < |s| :: !(s[j].active && s[k].active)
  }

  /** The first pass of `toggleAccordion`: every other active item closed. */
  function CloseOthers(s: seq<Panel>, h: nat): (r: seq<Panel>)
    ensures |r| == |s|
  {
    seq(|s|, k requires 0 <= k < |s| => if k != h && s[k].active then Closed(s[k]) else s[k])
  }

  /** The whole effect of `toggleAccordion` on item `h`. */
  function Toggled(s: seq<Panel>, h: nat): (r: seq<Panel>)
    requires h < |s|
    ensures |r| == |s|
  {
    CloseOthers(s, h)[h := if s[h].active then Closed(s[h]) else Opened(s[h])]
  }

  /** `openAccordionItem`. */
  method OpenItem(a: array<Panel>, h: nat)
    requires h < a.Length
    modifies a
    ensures a[..] == old(a[..])[h := Opened(old(a[h]))]
  {
    a[h] := Opened(a[h]);
  }

  /** `closeAccordionItem`. */
  method CloseItem(a: array<Panel>, h: nat)
    requires h < a.Length
    modifies a
    ensures a[..] == old(a[..])[h := Closed(old(a[h]))]
  {
    a[h] := Closed(a[h]);
  }

  /** `toggleAccordion` on the header of item `h`. */
  method ToggleAccordion(a: array<Panel>, h: nat)
    requires h < a.Length
    modifies a
    ensures a[..] == Toggled(old(a[..]), h)
  {
    var wasActive := a[h].active;
    for j := 0 to a.Length
      invariant forall k | 0 <= k < a.Length :: a[k] == if k < j then CloseOthers(old(a[..]), h)[k] else old(a[k])
    {
      if j != h && a[j].active {
        CloseItem(a, j);
      }
    }
    if wasActive {
      CloseItem(a, h);
    } else {
      OpenItem(a, h);
    }
  }

  /** The closing pass of `initializeAccordion`: items without `active` get the closed attributes. */
  method InitializeAccordion(a: array<Panel>)
    modifies a
    ensures forall k | 0 <= k < a.Length :: a[k] == if old(a[k]).active then old(a[k]) else Closed(old(a[k]))
  {
    for j := 0 to a.Length
      invariant forall k | 0 <= k < a.Length :: a[k] == if k < j && !old(a[k]).active then Closed(old(a[k])) else old(a[k])
    {
      if !a[j].active {
        a[j] := Closed(a[j]);
      }
    }
  }

  /**
   * The `keydown` listener `initializeAccordion` puts on each header: Enter
   * or Space toggles the item (and cancels the key's default action); any
   * other key changes nothing.
   */
  method HeaderKeyDown(a: array<Panel>, h: nat, key: string) returns (prevented: bool)
    requires h < a.Length
    modifies a
    ensures prevented <==> key == "Enter" || key == " "
    ensures a[..] == if prevented then Toggled(old(a[..]), h) else old(a[..])
  {
    prevented := key == "Enter" || key == " ";
    if prevented {
      ToggleAccordion(a, h);
    }
  }

  // ---------------------------------------------------------------------------
  // Properties of a toggle

  /** After a toggle at most one item is open, and if one is, it is the clicked one. */
  lemma ToggleLeavesAtMostOne(s: seq<Panel>, h: nat)
    requires h < |s|
    ensures AtMostOneActive(Toggled(s, h))
    ensures forall k | 0 <= k < |s| && k != h :: !Toggled(s, h)[k].active
  {
  }

  /** The clicked item is open afterwards exactly when it was closed before. */
  lemma ToggleFlipsClicked(s: seq<Panel>, h: nat)
    requires h < |s|
    ensures Toggled(s, h)[h].active <==> !s[h].active
  {
  }

  /** Closed items other than the clicked one are left exactly as they were. */
  lemma ToggleKeepsClosedOthers(s: seq<Panel>, h: nat, k: nat)
    requires h < |s| && k < |s| && k != h
    requires !s[k].active
    ensures Toggled(s, h)[k] == s[k]
  {
  }

  /** Every item a toggle touches ends with its icon and ARIA attributes matching its state. */
  lemma ToggleKeepsConsistent(s: seq<Panel>, h: nat)
    requires h < |s|
    requires forall k | 0 <= k < |s| :: Consistent(s[k])
    ensures forall k | 0 <= k < |s| :: Consistent(Toggled(s, h)[k])
  {
  }

  /**
   * Toggling the same header twice puts the clicked item back in its former
   * open or closed state and leaves every other item closed.
   */
  lemma ToggleTwice(s: seq<Panel>, h: nat)
    requires h < |s|
    ensures Toggled(Toggled(s, h), h)[h].active == s[h].active
    ensures forall k | 0 <= k < |s| && k != h :: !Toggled(Toggled(s, h), h)[k].active
  {
    var t := Toggled(s, h);
    assert forall k | 0 <= k < |s| && k != h :: !t[k].active;
  }

  /** Opening then closing an item brings its attributes back to the closed state, keeping its height. */
  lemma OpenThenClose(p: Panel)
    ensures Closed(Opened(p)) == Closed(p)
    ensures Consistent(Opened(p)) && Consistent(Closed(p))
  {
  }
}
