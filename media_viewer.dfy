/** The project page's media viewer (scripts.js, the hover-trigger, lightbox
    and tooltip block): hovering a trigger swaps the background video for the
    trigger's image, clicking a trigger "stamps" (locks) the image, a click
    elsewhere unlocks it, and the shown image opens in a lightbox.

    The transitions are first written as functions on a value `Viewer`
    (the specification); the class `ProjectViewer` holds the same state in
    fields and its methods update them in place, each promising the
    corresponding function of its old state. */
module MediaViewer {

  import opened Common
  import Tooltip

  /** What the page offers the script: the hover-capability probe and which
      lightbox parts exist. The viewer itself exists only when the video, the
      image, its container and at least one trigger are present. */
  datatype Env = Env(hasHover: bool, hasLightbox: bool, hasLightboxImage: bool,
                     hasCloseControl: bool, hasOverlay: bool)
  {
    /** `openLightbox` needs the lightbox and its image. */
    predicate CanOpenLightbox() { hasLightbox && hasLightboxImage }

    /** `initLightbox` wires the close control and the Escape key only when
        the lightbox, its image and its close control all exist. */
    predicate CloseWired() { CanOpenLightbox() && hasCloseControl }

    predicate OverlayWired() { CloseWired() && hasOverlay }
  }

  /** The closure variables `isImageLocked`/`lockedImagePath`, the image's
      `src`, whether the image container and the video are displayed, the
      lightbox (`display: flex`), its image and the body's `overflow: hidden`,
      the tooltip, and the URLs handed to `window.open` on touch devices. */
  datatype Viewer = Viewer(
    locked: bool,
    lockedPath: Option<string>,
    imageSrc: string,
    containerShown: bool,
    videoShown: bool,
    lightboxOpen: bool,
    lightboxSrc: string,
    overflowHidden: bool,
    tooltipVisible: bool,
    tooltip: Option<Tooltip.Placement>,
    newTabs: seq<string>)

  /** Where a click lands. A trigger carries its `data-image` ("" when absent
      or empty); the lightbox's close control, overlay and other contents lie
      inside `.lightbox`; the caption is the container's `.image-expand-text`. */
  datatype Target =
    | Trigger(path: string)
    | ProjectImage
    | ExpandText
    | ImageContainer
    | LightboxClose
    | LightboxOverlay
    | InsideLightbox
    | Elsewhere

  datatype Event =
    | HoverEnter(path: string, rect: Tooltip.Rect)
    | HoverLeave(path: string)
    | ScrollOver(path: string, rect: Tooltip.Rect)
    | Click(target: Target)
    | KeyDown(key: string)

  /** The state the page starts in: video shown, image hidden, unlocked,
      lightbox closed (the stylesheet's initial display values). */
  function Initial(imageSrc: string): Viewer
  {
    Viewer(false, None, imageSrc, false, true, false, "", false, false, None, [])
  }

  /** The viewer's invariant: exactly one of image container and video is
      displayed, the two lock variables agree, a lock (which only a hover
      device can make) keeps its image shown, the body is scroll-locked
      exactly while the lightbox is open, the tooltip exists only on hover
      devices, and only touch devices open new tabs. */
  ghost predicate Inv(env: Env, v: Viewer)
  {
    v.containerShown != v.videoShown
    && (v.locked <==> v.lockedPath.Some?)
    && (v.locked ==> env.hasHover && v.containerShown && v.lockedPath.value != ""
                     && v.imageSrc == v.lockedPath.value)
    && v.overflowHidden == v.lightboxOpen
    && (v.lightboxOpen ==> env.CanOpenLightbox())
    && (v.tooltipVisible ==> v.tooltip.Some?)
    && (v.tooltip.Some? ==> env.hasHover)
    && (v.newTabs != [] ==> !env.hasHover)
  }

  // The script's named functions.

  function ImageShown(v: Viewer, path: string): Viewer
  {
    v.(imageSrc := path, containerShown := true, videoShown := false)
  }

  function ImageHidden(v: Viewer): Viewer
  {
    if v.locked then v else v.(containerShown := false, videoShown := true)
  }

  function ImageLocked(v: Viewer, path: string): Viewer
  {
    ImageShown(v.(locked := true, lockedPath := Some(path)), path)
  }

  function ImageUnlocked(v: Viewer): Viewer
  {
    v.(locked := false, lockedPath := None, containerShown := false, videoShown := true)
  }

  function LightboxOpened(env: Env, v: Viewer, path: string): Viewer
  {
    if env.CanOpenLightbox() then v.(lightboxSrc := path, lightboxOpen := true, overflowHidden := true)
    else v
  }

  function LightboxClosed(env: Env, v: Viewer): Viewer
  {
    if env.hasLightbox then v.(lightboxOpen := false, overflowHidden := false) else v
  }

  function TooltipShown(v: Viewer, rect: Tooltip.Rect): Viewer
  {
    v.(tooltip := Some(Tooltip.Place(rect)), tooltipVisible := true)
  }

  function TooltipHidden(v: Viewer): Viewer
  {
    v.(tooltipVisible := false)
  }

  // The listeners.

  /** The image's (and the caption's) click: opens the lightbox on the image's
      source when there is one and the container is displayed. */
  function ImageClick(env: Env, v: Viewer): Viewer
  {
    if v.imageSrc != "" && v.containerShown then LightboxOpened(env, v, v.imageSrc) else v
  }

  /** The document's click listener, for a click that reached the document. */
  function DocumentClick(v: Viewer, inTrigger: bool, inLightbox: bool): Viewer
  {
    if !inTrigger && !inLightbox && v.locked then ImageUnlocked(v) else v
  }

  /** A trigger's click listener (there is none on a trigger without an image):
      lock on hover devices, otherwise ask for the image in a new tab. */
  function TriggerClick(env: Env, v: Viewer, path: string): Viewer
    requires path != ""
  {
    if env.hasHover then ImageLocked(v, path) else v.(newTabs := v.newTabs + [path])
  }

  /** A click, through every listener it reaches while bubbling. Trigger,
      image and close-control listeners stop the propagation; the container's
      listener does not, so a caption click also reaches the document. */
  function ClickOn(env: Env, v: Viewer, t: Target): Viewer
  {
    match t
    case Trigger(path) => if path == "" then v else TriggerClick(env, v, path)
    case ProjectImage => ImageClick(env, v)
    case ExpandText => DocumentClick(ImageClick(env, v), false, false)
    case ImageContainer => DocumentClick(v, false, false)
    case LightboxClose => if env.CloseWired() then LightboxClosed(env, v) else v
    case LightboxOverlay => if env.OverlayWired() then LightboxClosed(env, v) else v
    case InsideLightbox => v
    case Elsewhere => DocumentClick(v, false, false)
  }

  /** One event on the page. Triggers without an image and devices without
      hover have no hover listeners. */
  function Step(env: Env, v: Viewer, e: Event): Viewer
  {
    match e
    case HoverEnter(path, rect) =>
      if !env.hasHover || path == "" then v
      else
        var w := TooltipShown(v, rect);
        if w.locked then w else ImageShown(w, path)
    case HoverLeave(path) =>
      if !env.hasHover || path == "" then v else ImageHidden(TooltipHidden(v))
    case ScrollOver(path, rect) =>
      if !env.hasHover || path == "" then v else v.(tooltip := Some(Tooltip.Place(rect)))
    case Click(t) => ClickOn(env, v, t)
    case KeyDown(key) =>
      if env.CloseWired() && key == "Escape" && v.lightboxOpen then LightboxClosed(env, v) else v
  }

  function Run(env: Env, v: Viewer, events: seq<Event>): Viewer
    decreases |events|
  {
    if events == [] then v else Run(env, Step(env, v, events[0]), events[1..])
  }

  // Properties.

  lemma InitialIsValid(env: Env, imageSrc: string)
    ensures Inv(env, Initial(imageSrc))
    ensures !Initial(imageSrc).containerShown && Initial(imageSrc).videoShown
  {
  }

  lemma ClickPreservesInv(env: Env, v: Viewer, t: Target)
    requires Inv(env, v)
    ensures Inv(env, ClickOn(env, v, t))
  {
  }

  lemma StepPreservesInv(env: Env, v: Viewer, e: Event)
    requires Inv(env, v)
    ensures Inv(env, Step(env, v, e))
  {
    if e.Click? {
      ClickPreservesInv(env, v, e.target);
    }
  }

  /** No sequence of events ever shows the image and the video together (or
      neither), nor breaks any other part of the invariant. */
  lemma {:induction false} RunPreservesInv(env: Env, v: Viewer, events: seq<Event>)
    requires Inv(env, v)
    ensures Inv(env, Run(env, v, events))
    ensures Run(env, v, events).containerShown != Run(env, v, events).videoShown
    decreases |events|
  {
    if events != [] {
      StepPreservesInv(env, v, events[0]);
      RunPreservesInv(env, Step(env, v, events[0]), events[1..]);
    }
  }

  /** Clicking a trigger with an image on a hover device locks that image and
      shows it in place of the video. */
  lemma TriggerClickLocks(env: Env, v: Viewer, path: string)
    requires env.hasHover && path != ""
    ensures var w := Step(env, v, Click(Trigger(path)));
      w.locked && w.lockedPath == Some(path) && w.imageSrc == path
      && w.containerShown && !w.videoShown
      && w.lightboxOpen == v.lightboxOpen && w.newTabs == v.newTabs
  {
  }

  /** While locked, leaving or entering any trigger keeps the locked image
      displayed and the lock as it was. */
  lemma LockSurvivesHover(env: Env, v: Viewer, e: Event)
    requires Inv(env, v) && v.locked
    requires e.HoverEnter? || e.HoverLeave? || e.ScrollOver?
    ensures var w := Step(env, v, e);
      w.locked && w.lockedPath == v.lockedPath && w.imageSrc == v.lockedPath.value
      && w.containerShown && !w.videoShown
  {
  }

  /** Unlocked, hover-enter shows the trigger's image and hover-leave brings
      back the video. */
  lemma HoverSwapsWhenUnlocked(env: Env, v: Viewer, path: string, rect: Tooltip.Rect)
    requires Inv(env, v) && !v.locked && env.hasHover && path != ""
    ensures var w := Step(env, v, HoverEnter(path, rect));
      w.imageSrc == path && w.containerShown && !w.videoShown && !w.locked
      && w.tooltipVisible && w.tooltip == Some(Tooltip.Place(rect))
    ensures var u := Step(env, Step(env, v, HoverEnter(path, rect)), HoverLeave(path));
      !u.containerShown && u.videoShown && !u.tooltipVisible && !u.locked
  {
  }

  /** A click that reaches the document unlocks exactly when the viewer is
      locked and the click is neither inside a trigger nor in the lightbox;
      unlocking restores the unlocked, video-shown state. */
  lemma DocumentClickUnlocks(v: Viewer, inTrigger: bool, inLightbox: bool)
    ensures var w := DocumentClick(v, inTrigger, inLightbox);
      (w != v) <==> (v.locked && !inTrigger && !inLightbox)
    ensures var w := DocumentClick(v, inTrigger, inLightbox);
      v.locked && !inTrigger && !inLightbox ==>
        !w.locked && w.lockedPath == None && !w.containerShown && w.videoShown
  {
  }

  /** A click elsewhere on the page returns a locked viewer to the idle state
      (video shown, unlocked) and leaves everything else alone. */
  lemma ClickElsewhereUnlocks(env: Env, v: Viewer)
    requires Inv(env, v) && v.locked
    ensures ClickOn(env, v, Elsewhere) ==
      v.(locked := false, lockedPath := None, containerShown := false, videoShown := true)
  {
  }

  /** Without hover, no event changes the lock; a trigger click only issues an
      open request for its image. */
  lemma NoHoverNeverLocks(env: Env, v: Viewer, e: Event)
    requires Inv(env, v) && !env.hasHover
    ensures !Step(env, v, e).locked && !v.locked
    ensures e.Click? && e.target.Trigger? && e.target.path != "" ==>
      Step(env, v, e) == v.(newTabs := v.newTabs + [e.target.path])
  {
  }

  /** Opening and closing the lightbox (image click, close control, overlay,
      Escape) never touches the lock or what the viewer displays. */
  lemma LightboxLeavesLockAlone(env: Env, v: Viewer, e: Event)
    requires e == Click(ProjectImage) || e == Click(LightboxClose) || e == Click(LightboxOverlay)
             || e.KeyDown?
    ensures var w := Step(env, v, e);
      w.locked == v.locked && w.lockedPath == v.lockedPath && w.imageSrc == v.imageSrc
      && w.containerShown == v.containerShown && w.videoShown == v.videoShown
  {
  }

  /** Clicking the shown image opens it full-screen and suspends page scrolling;
      Escape then closes it and restores scrolling. */
  lemma ImageClickOpensThenEscapeCloses(env: Env, v: Viewer)
    requires env.CloseWired() && v.imageSrc != "" && v.containerShown
    ensures var w := Step(env, v, Click(ProjectImage));
      w.lightboxOpen && w.overflowHidden && w.lightboxSrc == v.imageSrc
    ensures var u := Step(env, Step(env, v, Click(ProjectImage)), KeyDown("Escape"));
      !u.lightboxOpen && !u.overflowHidden
  {
  }

  /** The caption click is not stopped, so on a locked viewer it opens the
      lightbox on the locked image and also unlocks it. */
  lemma CaptionClickAlsoUnlocks(env: Env, v: Viewer)
    requires Inv(env, v) && v.locked && env.CanOpenLightbox()
    ensures var w := Step(env, v, Click(ExpandText));
      w.lightboxOpen && w.lightboxSrc == v.lockedPath.value && !w.locked && w.videoShown
  {
  }

  /** A trigger without an image has no listeners of its own, and the document
      listener treats a click inside it as a click on a trigger: no event on
      it changes anything. */
  lemma ImagelessTriggerIsInert(env: Env, v: Viewer, rect: Tooltip.Rect)
    ensures Step(env, v, Click(Trigger(""))) == v
    ensures Step(env, v, HoverEnter("", rect)) == v
    ensures Step(env, v, HoverLeave("")) == v
    ensures Step(env, v, ScrollOver("", rect)) == v
  {
  }

  /** The close control and Escape act only when `initLightbox` wired them
      (lightbox, image and close control present); the overlay also needs to
      exist; opening needs only the lightbox and its image. */
  lemma LightboxNeedsItsParts(env: Env, v: Viewer, key: string)
    ensures !env.CloseWired() ==> Step(env, v, Click(LightboxClose)) == v && Step(env, v, KeyDown(key)) == v
    ensures !env.OverlayWired() ==> Step(env, v, Click(LightboxOverlay)) == v
    ensures !env.CanOpenLightbox() ==> Step(env, v, Click(ProjectImage)) == v
    ensures env.CanOpenLightbox() && v.imageSrc != "" && v.containerShown ==>
      Step(env, v, Click(ProjectImage)).lightboxOpen
  {
  }

  /** Stamping an image, moving off the trigger and clicking elsewhere: the
      image stays through the hover-leave, and the click brings back the video. */
  lemma {:induction false} StampLeaveUnstamp(env: Env, v: Viewer, path: string)
    requires Inv(env, v) && env.hasHover && path != ""
    ensures var w := Run(env, v, [Click(Trigger(path)), HoverLeave(path)]);
      w.locked && w.imageSrc == path && w.containerShown && !w.videoShown
    ensures var u := Run(env, v, [Click(Trigger(path)), HoverLeave(path), Click(Elsewhere)]);
      !u.locked && u.lockedPath == None && !u.containerShown && u.videoShown
  {
    var a := Step(env, v, Click(Trigger(path)));
    var b := Step(env, a, HoverLeave(path));
    var c := Step(env, b, Click(Elsewhere));
    var leave, click := [HoverLeave(path)], [Click(Elsewhere)];
    assert leave[1..] == [] && click[1..] == [];
    assert Run(env, a, leave) == b;
    assert Run(env, b, click) == c;
    assert [Click(Trigger(path)), HoverLeave(path)][1..] == leave;
    assert [HoverLeave(path), Click(Elsewhere)][1..] == click;
    assert Run(env, a, [HoverLeave(path), Click(Elsewhere)]) == c;
    assert [Click(Trigger(path)), HoverLeave(path), Click(Elsewhere)][1..] == [HoverLeave(path), Click(Elsewhere)];
  }

  /** The viewer's closure state, updated in place by its listeners. */
  class ProjectViewer {
    const env: Env
    var isImageLocked: bool
    var lockedImagePath: Option<string>
    var imageSrc: string
    var containerShown: bool
    var videoShown: bool
    var lightboxOpen: bool
    var lightboxSrc: string
    var bodyOverflowHidden: bool
    var tooltipVisible: bool
    var tooltip: Option<Tooltip.Placement>
    var newTabs: seq<string>

    function Snapshot(): Viewer
      reads this
    {
      Viewer(isImageLocked, lockedImagePath, imageSrc, containerShown, videoShown,
             lightboxOpen, lightboxSrc, bodyOverflowHidden, tooltipVisible, tooltip, newTabs)
    }

    ghost predicate Valid()
      reads this
    {
      Inv(env, Snapshot())
    }

    constructor (env: Env, imageSrc: string)
      ensures this.env == env && Snapshot() == Initial(imageSrc) && Valid()
    {
      this.env := env;
      isImageLocked, lockedImagePath := false, None;
      this.imageSrc := imageSrc;
      containerShown, videoShown := false, true;
      lightboxOpen, lightboxSrc, bodyOverflowHidden := false, "", false;
      tooltipVisible, tooltip := false, None;
      newTabs := [];
    }

    method ShowImage(path: string)
      modifies this
      ensures Snapshot() == ImageShown(old(Snapshot()), path)
    {
      imageSrc := path;
      containerShown := true;
      videoShown := false;
    }

    method HideImage()
      modifies this
      ensures Snapshot() == ImageHidden(old(Snapshot()))
    {
      if !isImageLocked {
        containerShown := false;
        videoShown := true;
      }
    }

    method LockImage(path: string)
      modifies this
      ensures Snapshot() == ImageLocked(old(Snapshot()), path)
    {
      isImageLocked := true;
      lockedImagePath := Some(path);
      ShowImage(path);
    }

    method UnlockImage()
      modifies this
      ensures Snapshot() == ImageUnlocked(old(Snapshot()))
    {
      isImageLocked := false;
      lockedImagePath := None;
      containerShown := false;
      videoShown := true;
    }

    method OpenLightbox(path: string)
      modifies this
      ensures Snapshot() == LightboxOpened(env, old(Snapshot()), path)
    {
      if env.CanOpenLightbox() {
        lightboxSrc := path;
        lightboxOpen := true;
        bodyOverflowHidden := true;
      }
    }

    method CloseLightbox()
      modifies this
      ensures Snapshot() == LightboxClosed(env, old(Snapshot()))
    {
      if env.hasLightbox {
        lightboxOpen := false;
        bodyOverflowHidden := false;
      }
    }

    method OnHoverEnter(path: string, rect: Tooltip.Rect)
      requires Valid()
      modifies this
      ensures Valid() && Snapshot() == Step(env, old(Snapshot()), HoverEnter(path, rect))
    {
      StepPreservesInv(env, Snapshot(), HoverEnter(path, rect));
      if !env.hasHover || path == "" {
        return;
      }
      tooltip := Some(Tooltip.Place(rect));
      tooltipVisible := true;
      if !isImageLocked {
        ShowImage(path);
      }
    }

    method OnHoverLeave(path: string)
      requires Valid()
      modifies this
      ensures Valid() && Snapshot() == Step(env, old(Snapshot()), HoverLeave(path))
    {
      StepPreservesInv(env, Snapshot(), HoverLeave(path));
      if !env.hasHover || path == "" {
        return;
      }
      tooltipVisible := false;
      HideImage();
    }

    method OnScroll(hoveredPath: string, rect: Tooltip.Rect)
      requires Valid()
      modifies this
      ensures Valid() && Snapshot() == Step(env, old(Snapshot()), ScrollOver(hoveredPath, rect))
    {
      StepPreservesInv(env, Snapshot(), ScrollOver(hoveredPath, rect));
      if !env.hasHover || hoveredPath == "" {
        return;
      }
      tooltip := Some(Tooltip.Place(rect));
    }

    /** The image's click listener, also run by the container's listener for a
        caption click. */
    method OnImageClick()
      modifies this
      ensures Snapshot() == ImageClick(env, old(Snapshot()))
    {
      if imageSrc != "" && containerShown {
        OpenLightbox(imageSrc);
      }
    }

    method OnDocumentClick(inTrigger: bool, inLightbox: bool)
      modifies this
      ensures Snapshot() == DocumentClick(old(Snapshot()), inTrigger, inLightbox)
    {
      if !inTrigger && !inLightbox && isImageLocked {
        UnlockImage();
      }
    }

    method OnClick(t: Target)
      requires Valid()
      modifies this
      ensures Valid() && Snapshot() == Step(env, old(Snapshot()), Click(t))
    {
      StepPreservesInv(env, Snapshot(), Click(t));
      match t
      case Trigger(path) =>
        if path != "" {
          if env.hasHover {
            LockImage(path);
          } else {
            newTabs := newTabs + [path];
          }
        }
      case ProjectImage =>
        OnImageClick();
      case ExpandText =>
        OnImageClick();
        OnDocumentClick(false, false);
      case ImageContainer =>
        OnDocumentClick(false, false);
      case LightboxClose =>
        if env.CloseWired() {
          CloseLightbox();
        }
      case LightboxOverlay =>
        if env.OverlayWired() {
          CloseLightbox();
        }
      case InsideLightbox =>
      case Elsewhere =>
        OnDocumentClick(false, false);
    }

    method OnKeyDown(key: string)
      requires Valid()
      modifies this
      ensures Valid() && Snapshot() == Step(env, old(Snapshot()), KeyDown(key))
    {
      StepPreservesInv(env, Snapshot(), KeyDown(key));
      if env.CloseWired() && key == "Escape" && lightboxOpen {
        CloseLightbox();
      }
    }
  }
}
