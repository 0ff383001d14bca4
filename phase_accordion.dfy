/** The collapsible phase panels of a project page (scripts.js, the phase
    dropdown block). Each `.phase-toggle` that is followed by a
    `.phase-content` panel gets one controller; the panel's measured
    `scrollHeight` is an input of each toggle. */
module PhaseAccordion {

  /** What one toggle reads and writes: the panel's `expanded` class and
      `max-height` in pixels (the script's '0' is 0), the toggle's `active`
      class and its `aria-expanded` attribute. */
  datatype Disclosure = Disclosure(expanded: bool, maxHeight: nat, active: bool, ariaExpanded: string)

  /** The three representations of "open" agree, and a closed panel has no height. */
  predicate InAgreement(d: Disclosure)
  {
    d.active == d.expanded
    && d.ariaExpanded == (if d.expanded then "true" else "false")
    && (!d.expanded ==> d.maxHeight == 0)
  }

  /** The state set up when the listeners are attached; the classes are the
      markup's, which the set-up does not touch. */
  function Initial(markupExpanded: bool, markupActive: bool): Disclosure
  {
    Disclosure(markupExpanded, 0, markupActive, "false")
  }

  /** `handleToggle`: decided by the panel's `expanded` class alone. */
  function Toggle(d: Disclosure, scrollHeight: nat): (r: Disclosure)
    ensures InAgreement(r)
    ensures r.expanded == !d.expanded
    ensures r.expanded ==> r.maxHeight == scrollHeight
  {
    if d.expanded then Disclosure(false, 0, false, "false")
    else Disclosure(true, scrollHeight, true, "true")
  }

  /** From the usual markup (no classes), one toggle expands to the measured
      height and a second returns exactly to the initial collapsed state. */
  lemma ToggleTwiceRestores(h1: nat, h2: nat)
    ensures Toggle(Initial(false, false), h1) == Disclosure(true, h1, true, "true")
    ensures Toggle(Toggle(Initial(false, false), h1), h2) == Initial(false, false)
  {
  }

  /** From any state the classes, attribute and height agree, two toggles
      come back to it. */
  lemma ToggleTwiceInAgreement(d: Disclosure, h1: nat, h2: nat)
    requires InAgreement(d)
    requires d.expanded ==> d.maxHeight == h2
    ensures Toggle(Toggle(d, h1), h2) == d
  {
  }

  /** The keys that activate a toggle like a click. */
  predicate IsActivationKey(key: string)
  {
    key == "Enter" || key == " "
  }

  /** One phase toggle and its panel, updated in place. */
  class PhaseToggle {
    var expanded: bool
    var maxHeight: nat
    var active: bool
    var ariaExpanded: string

    function State(): Disclosure
      reads this
    {
      Disclosure(expanded, maxHeight, active, ariaExpanded)
    }

    constructor (markupExpanded: bool, markupActive: bool)
      ensures State() == Initial(markupExpanded, markupActive)
    {
      expanded, active := markupExpanded, markupActive;
      maxHeight := 0;
      ariaExpanded := "false";
    }

    /** The click listener. */
    method HandleToggle(scrollHeight: nat)
      modifies this
      ensures State() == Toggle(old(State()), scrollHeight)
    {
      if expanded {
        expanded := false;
        maxHeight := 0;
        active := false;
        ariaExpanded := "false";
      } else {
        expanded := true;
        maxHeight := scrollHeight;
        active := true;
        ariaExpanded := "true";
      }
    }

    /** The keydown listener: Enter and Space prevent the default action and
        toggle; other keys do nothing. */
    method KeyDown(key: string, scrollHeight: nat) returns (preventDefault: bool)
      modifies this
      ensures preventDefault == IsActivationKey(key)
      ensures State() == if preventDefault then Toggle(old(State()), scrollHeight) else old(State())
    {
      preventDefault := IsActivationKey(key);
      if preventDefault {
        HandleToggle(scrollHeight);
      }
    }
  }
}
