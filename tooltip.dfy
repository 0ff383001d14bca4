/** Placement of the "Click to stamp image" tooltip and its arrow next to a
    hover trigger of the project page (scripts.js, updateTooltipPosition).
    Coordinates are viewport pixels; they are reals because a trigger's
    bounding box and its half width are fractional. */
module Tooltip {

  const TooltipHeight: real := 40.0
  const ArrowHeight: real := 5.0
  const Spacing: real := 8.0
  const MinTopMargin: real := 10.0

  /** The clearance above a trigger below which the tooltip flips under it. */
  const FlipThreshold: real := TooltipHeight + ArrowHeight + Spacing + MinTopMargin

  /** The part of a trigger's bounding client rectangle the placement reads. */
  datatype Rect = Rect(top: real, bottom: real, left: real, width: real)

  /** Where the tooltip and the arrow go; `below` is the arrow's `below` class. */
  datatype Placement = Placement(tooltipTop: real, arrowTop: real, left: real, below: bool)

  function Place(rect: Rect): (p: Placement)
    ensures p.below <==> rect.top < 63.0
    ensures p.below ==> p.tooltipTop == rect.bottom + 8.0 && p.arrowTop == rect.bottom + 3.0
    ensures !p.below ==> p.tooltipTop == rect.top - 48.0 && p.arrowTop == rect.top - 8.0
    ensures p.left == rect.left + rect.width / 2.0
  {
    var left := rect.left + rect.width / 2.0;
    if rect.top < FlipThreshold then
      Placement(rect.bottom + Spacing, rect.bottom + Spacing - ArrowHeight, left, true)
    else
      Placement(rect.top - TooltipHeight - Spacing, rect.top - Spacing, left, false)
  }

  /** The arrow always touches the tooltip box: under the tooltip when the tooltip
      is above the trigger, over it when the tooltip is below. */
  lemma ArrowAbutsTooltip(rect: Rect)
    ensures var p := Place(rect);
      if p.below then p.arrowTop + ArrowHeight == p.tooltipTop
      else p.arrowTop == p.tooltipTop + TooltipHeight
  {
  }

  /** Neither placement covers a trigger of non-negative height: below, the tooltip
      starts one spacing under the trigger; above, it ends one spacing over it. */
  lemma TooltipClearsTrigger(rect: Rect)
    requires rect.top <= rect.bottom
    ensures var p := Place(rect);
      if p.below then p.tooltipTop == rect.bottom + Spacing
      else p.tooltipTop + TooltipHeight + Spacing == rect.top
  {
  }

  /** When the tooltip goes above, it keeps at least the minimum margin (plus the
      arrow's height) from the top of the viewport. */
  lemma AboveKeepsTopMargin(rect: Rect)
    requires !Place(rect).below
    ensures Place(rect).tooltipTop >= MinTopMargin + ArrowHeight
  {
  }
}
