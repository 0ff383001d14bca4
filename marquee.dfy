/** The infinite marquee on the home page (scripts.js, the marquee block):
    the content container is doubled once by appending a clone of itself, and
    an endless linear tween moves it left by half of the doubled width. The
    animation library is left out; the model records which tween would be
    started. */
module Marquee {

  import opened Common

  const LoopSeconds: nat := 50

  /** A `gsap.to` request: tween `x` to `toX` in `seconds`, linear, and repeat
      forever when `forever` (repeat -1). */
  datatype Tween = Tween(toX: real, seconds: nat, forever: bool)

  /** The tween `initMarquee` starts for a measured doubled width, or None when
      half of that width is zero and no animation is started. */
  function LoopTween(totalWidth: nat): (t: Option<Tween>)
    ensures t.None? <==> totalWidth == 0
    ensures t.Some? ==> t.value.toX < 0.0 && -2.0 * t.value.toX == totalWidth as real
    ensures t.Some? ==> t.value.seconds == LoopSeconds && t.value.forever
  {
    var singleWidth := totalWidth as real / 2.0;
    if singleWidth == 0.0 then None else Some(Tween(-singleWidth, LoopSeconds, true))
  }

  /** When the doubled content is two copies of width `w`, the loop moves by
      exactly one copy, so the last frame shows what the first one showed. */
  lemma LoopMovesOneCopy(w: nat)
    requires w > 0
    ensures LoopTween(2 * w) == Some(Tween(-(w as real), LoopSeconds, true))
  {
  }

  /** The `.marquee__content` element: its `data-cloned` flag, how many copies
      of the authored content it holds, its `x` translation and its tween. */
  class MarqueeContent {
    var cloned: bool
    var copies: nat
    var x: real
    var tween: Option<Tween>

    ghost predicate Valid()
      reads this
    {
      (cloned ==> copies == 2) && (!cloned ==> copies == 1)
    }

    /** The authored container: not yet cloned, one copy, no animation. */
    constructor ()
      ensures Valid() && !cloned && copies == 1 && x == 0.0 && tween == None
    {
      cloned, copies, x, tween := false, 1, 0.0, None;
    }

    /** Appends one clone unless the container is already marked as cloned. */
    method EnsureClone()
      requires Valid()
      modifies this
      ensures Valid() && cloned && copies == 2
      ensures old(cloned) ==> copies == old(copies)
      ensures x == old(x) && tween == old(tween)
    {
      if cloned {
        return;
      }
      copies := copies + 1;
      cloned := true;
    }

    /** `initMarquee` with the container's measured `scrollWidth` after the
        clone: on a zero width nothing is animated (and an earlier tween is
        left running); otherwise the old tween is killed, `x` is reset to 0 and
        the loop tween replaces it. */
    method InitMarquee(totalWidth: nat)
      requires Valid()
      modifies this
      ensures Valid() && cloned && copies == 2
      ensures totalWidth == 0 ==> x == old(x) && tween == old(tween)
      ensures totalWidth > 0 ==> x == 0.0 && tween == LoopTween(totalWidth)
    {
      EnsureClone();
      var t := LoopTween(totalWidth);
      if t.None? {
        return;
      }
      x := 0.0;
      tween := t;
    }
  }
}
