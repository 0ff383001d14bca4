# Portfolio page behaviours, modelled in Dafny

This project models the decision logic of `scripts.js`, the interaction script of a
portfolio website. The browser is abstracted away: element presence, the
hover-capability probe, pointer coordinates, viewport sizes, bounding boxes,
measured widths and heights and the current date all become parameters.

- **Marquee** (`marquee.dfy`). The home-page marquee container is doubled once by
  appending a clone of itself. The `data-cloned` flag guards the clone. An endless
  linear tween then moves the container left by half of the doubled width. A zero
  width starts no tween.
- **HoverPreview** (`hover_preview.dfy`). The about-page work links show one shared,
  lazily created preview. It holds a muted looping video or an image, chosen from
  `data-preview-type` and the source's extension. It is placed 16 px from the
  pointer and flips each axis on its own at the viewport edge.
- **Tooltip** (`tooltip.dfy`). This places the "Click to stamp image" tooltip and its
  arrow above a hover trigger. It flips below when the trigger is less than 63 px
  from the top of the viewport.
- **MediaViewer** (`media_viewer.dfy`). This is the project-page viewer. Hovering a
  trigger swaps the background video for the trigger's image. Clicking a trigger
  stamps (locks) the image on hover devices. On touch devices the click asks for the
  image in a new tab. A click elsewhere unlocks. The shown image opens in a lightbox,
  which suspends page scrolling. The transitions are specified as functions on a
  value `Viewer` (`Step`, `Run`, invariant `Inv`). Class `ProjectViewer` holds the
  same state in fields. Each of its methods promises the matching function of its
  old state.
- **Timestamp** (`timestamp.dfy`). This is `pad` (`padStart(2, '0')`) and the
  `DD/MM/YY @ HH:MM` expression.
- **PhaseAccordion** (`phase_accordion.dfy`). Each phase toggle flips its panel's
  `expanded` class, `max-height`, the toggle's `active` class and `aria-expanded`.
  It can be driven by click or by Enter/Space.

Behaviour of the script worth knowing, each with the lemma that states it:

- A trigger click and a click on the project image stop propagation. This is
  built into `ClickOn`, which sends those clicks to no further listener. As a
  consequence a click on the image keeps the lock (`LightboxLeavesLockAlone`).
- A click on the image container's caption (`.image-expand-text`) does not stop
  propagation. On a locked viewer, that one click opens the lightbox on the locked
  image and also unlocks the viewer (`CaptionClickAlsoUnlocks`). The result is
  that the viewer can be unlocked while the lightbox is open, although the comment
  at scripts.js:378 reads otherwise. Only a click on the image itself leaves the
  lock alone.
- Clicking or hovering a trigger without a `data-image` does nothing
  (`ImagelessTriggerIsInert`). Such a trigger has no listeners, but the document
  handler still sees it as a trigger.
- The close button and the Escape key work only when the lightbox, its image and its
  close control all exist (scripts.js:183). The overlay also needs those three.
  Opening needs only the lightbox and its image (`LightboxNeedsItsParts`).

## Model

| member | source | states |
|---|---|---|
| `Marquee.LoopTween` | scripts.js:28-46 | A tween starts exactly when the doubled width is non-zero. Its target is minus half that width, over 50 s, repeating forever. |
| `Marquee.LoopMovesOneCopy` | scripts.js:18-46 | The tween for a doubled width 2w targets -w, that is, the width of one copy. |
| `Marquee.MarqueeContent.constructor` | scripts.js:15-16 | The container found on the page starts with one copy, not marked cloned, at x = 0 and with no tween. |
| `Marquee.MarqueeContent.EnsureClone` | scripts.js:19-25 | Afterwards the container is marked cloned and holds exactly two copies. A second call adds nothing. |
| `Marquee.MarqueeContent.InitMarquee` | scripts.js:28-47 | Always leaves two copies. A zero width keeps the old `x` and tween. Otherwise it resets `x` to 0 and replaces the tween with `LoopTween`. |
| `HoverPreview.PreviewMedia` | scripts.js:83-105 | Nothing is created exactly when the source is absent or empty. Otherwise the result is a video exactly when the lower-cased type is `video` or the source ends in `.mp4`/`.webm`. A video is muted, autoplaying, looping and inline. An image has an empty `alt`. |
| `HoverPreview.WebmIsVideo` | scripts.js:92-99 | Any `.webm` source gives a video with every playback flag set. |
| `HoverPreview.PngIsImage` | scripts.js:100-105 | Any `.png` source with no type gives an image. |
| `HoverPreview.TypeIsCaseInsensitive` | scripts.js:86-92 | The types `VIDEO` and `Video` select a video whatever the extension. |
| `HoverPreview.AxisPlace` | scripts.js:120-131 | One axis is `offset` past the pointer exactly when a box of `size` then fits in the viewport. Otherwise the box ends `offset` before the pointer, on the other side. |
| `HoverPreview.Place` | scripts.js:118-135 | Each coordinate is `AxisPlace` of its own axis, with the 100 px box and the 16 px offset. `PlaceFlips`, `AxesIndependent` and `RightEdgeFlips` state what that means. |
| `HoverPreview.AxesIndependent` | scripts.js:118-135 | The left edge depends only on clientX and innerWidth. The top depends only on clientY and innerHeight. |
| `HoverPreview.PlaceFlips` | scripts.js:120-131 | x is `clientX + 16` exactly when `clientX + 116 <= innerWidth`, and otherwise `clientX - 116`. y follows the same rule with innerHeight. |
| `HoverPreview.RightEdgeFlips` | scripts.js:120-131 | With x = 750 in an 800 px viewport the preview flips to 634 = 750 - 116. |
| `HoverPreview.PreviewController.constructor` | scripts.js:72-73 | There is no preview element yet and it is not visible. |
| `HoverPreview.PreviewController.PositionPreview` | scripts.js:118-135 | Places the existing element at `Place(...)`. Does nothing before the element exists. |
| `HoverPreview.PreviewController.ShowPreview` | scripts.js:83-110 | Always creates the element. With a source it sets the content to `PreviewMedia`, places and shows it, and sets `isVisible`. Without a source everything else is unchanged. |
| `HoverPreview.PreviewController.HidePreview` | scripts.js:112-116 | Sets display to none and clears `isVisible`. Does nothing before the element exists. |
| `HoverPreview.PreviewController.MouseEnter` | scripts.js:139-140 | On hover devices it creates the element. With a source it then shows `PreviewMedia` placed at the pointer. Without a source its content, display, position and visibility are unchanged. Without hover nothing changes. |
| `HoverPreview.PreviewController.MouseMove` | scripts.js:142 | On hover devices this re-places the existing preview. |
| `HoverPreview.PreviewController.MouseLeave` | scripts.js:141 | On hover devices this hides the preview. |
| `HoverPreview.PreviewController.Blur` | scripts.js:144-145 | Hides the preview on every device. |
| `Tooltip.Place` | scripts.js:264-295 | Below exactly when `rect.top < 63`, with tooltip top `bottom + 8` and arrow top `bottom + 3`. Otherwise tooltip top is `top - 48` and arrow top is `top - 8`. Left is always `left + width / 2`. |
| `Tooltip.ArrowAbutsTooltip` | scripts.js:277-287 | The arrow always touches the tooltip box. It sits above the box when placed below, and under the box when placed above. |
| `Tooltip.TooltipClearsTrigger` | scripts.js:277-287 | Below, the tooltip starts 8 px under the trigger. Above, it ends 8 px over it. |
| `Tooltip.AboveKeepsTopMargin` | scripts.js:268-285 | An above placement keeps at least the 10 px minimum margin plus the arrow height from the viewport top. |
| `MediaViewer.Initial` | scripts.js:213-214 | The idle start state: unlocked with no path, container hidden, video shown, lightbox closed, no tooltip, no new-tab requests. `InitialIsValid` proves it satisfies `Inv`. |
| `MediaViewer.Inv` | scripts.js:166-240 | The invariant that `RunPreservesInv` proves every event sequence keeps. Exactly one of container and video is displayed. `isImageLocked` holds exactly when `lockedImagePath` is set. Only a hover device can lock, and a lock has a non-empty path whose image is shown. The body is scroll-locked exactly while the lightbox is open, and the lightbox opens only when it and its image exist. A visible tooltip has a placement, and only hover devices get one. Only touch devices ask for new tabs. |
| `MediaViewer.ImageShown` | scripts.js:216-220 | `showImage`. `TriggerClickLocks` and `HoverSwapsWhenUnlocked` show its effect: the image src is the path, the container is shown and the video hidden. |
| `MediaViewer.ImageHidden` | scripts.js:222-227 | `hideImage`. `LockSurvivesHover` shows it changes nothing while locked. `HoverSwapsWhenUnlocked` shows it brings the video back when unlocked. |
| `MediaViewer.ImageLocked` | scripts.js:229-233 | `lockImage`. `TriggerClickLocks` shows the lock and its path set to p, with image p shown. |
| `MediaViewer.ImageUnlocked` | scripts.js:235-240 | `unlockImage`. `ClickElsewhereUnlocks` and `DocumentClickUnlocks` show it clears the lock and its path, hides the container and shows the video, and changes nothing else. |
| `MediaViewer.LightboxOpened` | scripts.js:166-172 | `openLightbox`. `ImageClickOpensThenEscapeCloses` shows it loads the path, opens the lightbox and hides body overflow. `Inv` records that it opens only when the lightbox and its image exist. |
| `MediaViewer.LightboxClosed` | scripts.js:174-179 | `closeLightbox`, guarded by the lightbox's presence. `ImageClickOpensThenEscapeCloses` shows it closes the lightbox and restores body overflow. |
| `MediaViewer.TooltipShown` | scripts.js:297-302 | `showTooltip`. `HoverSwapsWhenUnlocked` shows the tooltip visible at `Tooltip.Place` of the trigger's box. |
| `MediaViewer.TooltipHidden` | scripts.js:304-308 | `hideTooltip`. `HoverSwapsWhenUnlocked` shows a hover-leave hides the tooltip. |
| `MediaViewer.ImageClick` | scripts.js:353-359 | The image's click listener. `ImageClickOpensThenEscapeCloses` shows it opens the lightbox on the shown image. `LightboxLeavesLockAlone` shows it keeps the lock and the display. |
| `MediaViewer.DocumentClick` | scripts.js:379-386 | The document's click listener. `DocumentClickUnlocks` shows it changes the state exactly when locked and outside triggers and the lightbox. |
| `MediaViewer.TriggerClick` | scripts.js:335-347 | A trigger's click listener. `TriggerClickLocks` shows it locks on hover devices. `NoHoverNeverLocks` shows that otherwise it only appends a new-tab request. |
| `MediaViewer.ClickOn` | scripts.js:335-386 | The listeners one click reaches, in bubbling order, stopping where a listener calls `stopPropagation`. `ClickPreservesInv`, `ClickElsewhereUnlocks` and `CaptionClickAlsoUnlocks` state its effect. |
| `MediaViewer.Step` | scripts.js:198-386 | One hover, scroll, click or key event through the listeners the page wires. `StepPreservesInv`, `LockSurvivesHover`, `HoverSwapsWhenUnlocked`, `NoHoverNeverLocks` and `LightboxLeavesLockAlone` state its effect. |
| `MediaViewer.Run` | scripts.js:198-386 | A sequence of events in order. `RunPreservesInv` and `StampLeaveUnstamp` state its effect. |
| `MediaViewer.InitialIsValid` | scripts.js:213-214 | The start state (unlocked, video shown, image hidden) satisfies the invariant. |
| `MediaViewer.ClickPreservesInv` | scripts.js:335-386 | Every click, through every listener it reaches, preserves the invariant. |
| `MediaViewer.StepPreservesInv` | scripts.js:216-386 | Every hover, scroll, click or key event preserves the invariant. |
| `MediaViewer.RunPreservesInv` | scripts.js:216-240 | After any sequence of events, exactly one of image container and video is shown, and the rest of the invariant holds. |
| `MediaViewer.TriggerClickLocks` | scripts.js:335-341 | On a hover device, clicking a trigger with image p locks with path p and image src p. The container is shown and the video hidden. The lightbox and tab requests are unchanged. |
| `MediaViewer.LockSurvivesHover` | scripts.js:311-331 | While locked, hover-enter, hover-leave and scroll keep the lock, its path, the locked image and the display. |
| `MediaViewer.HoverSwapsWhenUnlocked` | scripts.js:312-331 | Unlocked, hover-enter shows the trigger's image and the placed tooltip. Hover-leave brings the video back and hides the tooltip. |
| `MediaViewer.DocumentClickUnlocks` | scripts.js:379-386 | The document click changes the state exactly when the viewer is locked and the target is in neither a trigger nor the lightbox. Then it unlocks, hides the container and shows the video. |
| `MediaViewer.ClickElsewhereUnlocks` | scripts.js:235-240 | A click elsewhere on a locked viewer clears the lock and its path, hides the container and shows the video. Nothing else changes. |
| `MediaViewer.NoHoverNeverLocks` | scripts.js:339-347 | Without hover no event ever locks. A trigger click only appends its image path to the new-tab requests. |
| `MediaViewer.LightboxLeavesLockAlone` | scripts.js:166-202 | Image click, close control, overlay and keys leave the lock, its path, the image and the display unchanged. |
| `MediaViewer.ImageClickOpensThenEscapeCloses` | scripts.js:352-359 | Clicking the shown image opens the lightbox on that image and hides body overflow. Escape then closes it and restores overflow. |
| `MediaViewer.CaptionClickAlsoUnlocks` | scripts.js:366-386 | On a locked viewer a caption click opens the lightbox on the locked image and also unlocks, showing the video. |
| `MediaViewer.ImagelessTriggerIsInert` | scripts.js:335-386 | A click, hover-enter, hover-leave or scroll on a trigger without `data-image` leaves the whole state unchanged. |
| `MediaViewer.LightboxNeedsItsParts` | scripts.js:166-202 | Without the lightbox, its image and its close control, the close click and every key change nothing. Without the overlay as well, an overlay click changes nothing. Without the lightbox and its image, an image click changes nothing. With them, clicking a shown, non-empty image opens the lightbox. |
| `MediaViewer.StampLeaveUnstamp` | scripts.js:328-386 | Click a trigger, leave it, click elsewhere. The image stays through the leave, and the last click returns to unlocked with the video shown. |
| `MediaViewer.ProjectViewer.constructor` | scripts.js:213-214 | Starts in the initial state and satisfies the invariant. |
| `MediaViewer.ProjectViewer.ShowImage` | scripts.js:216-220 | Sets the image src. Shows the container and hides the video. |
| `MediaViewer.ProjectViewer.HideImage` | scripts.js:222-227 | Unlocked, it hides the container and shows the video. Locked, nothing changes. |
| `MediaViewer.ProjectViewer.LockImage` | scripts.js:229-233 | Sets the lock and its path, then shows that image. |
| `MediaViewer.ProjectViewer.UnlockImage` | scripts.js:235-240 | Clears the lock and its path. Hides the container and shows the video. |
| `MediaViewer.ProjectViewer.OpenLightbox` | scripts.js:166-172 | When the lightbox and its image exist, it loads the path, opens the lightbox and hides body overflow. |
| `MediaViewer.ProjectViewer.CloseLightbox` | scripts.js:174-179 | When the lightbox exists, it closes it and restores body overflow. Otherwise nothing changes. |
| `MediaViewer.ProjectViewer.OnHoverEnter` | scripts.js:312-318 | Shows and places the tooltip. Shows the image unless locked. Keeps the invariant. |
| `MediaViewer.ProjectViewer.OnHoverLeave` | scripts.js:328-331 | Hides the tooltip and runs `hideImage`. Keeps the invariant. |
| `MediaViewer.ProjectViewer.OnScroll` | scripts.js:321-326 | Re-places the tooltip for the hovered trigger. |
| `MediaViewer.ProjectViewer.OnImageClick` | scripts.js:352-359 | Opens the lightbox on the image src when it is non-empty and the container is shown. |
| `MediaViewer.ProjectViewer.OnDocumentClick` | scripts.js:379-386 | Unlocks only when locked and the target is in neither a trigger nor the lightbox. |
| `MediaViewer.ProjectViewer.OnClick` | scripts.js:335-386 | Runs the listeners a click reaches, in bubbling order, and respects `stopPropagation`. Keeps the invariant. |
| `MediaViewer.ProjectViewer.OnKeyDown` | scripts.js:198-202 | Escape closes an open lightbox when the close handlers are wired. |
| `Timestamp.Format` | scripts.js:395-396 | The timestamp expression for the `Date` getters' values. `FormatLayout`, `FormatLength`, `OuterPadIsNoOp` and `ThirdOfMarch2025` state what it produces. |
| `Timestamp.Pad` | scripts.js:391 | `pad`, which is `padStart(2, '0')`. `PadLongIsIdentity`, `PadShort` and `PadDecimal` state its results. |
| `Timestamp.Decimal` | scripts.js:391 | `String(n)` for a natural number. It is never empty. `DecimalEndsWithUnits`, `PadDecimal` and `LastTwoOfDecimal` state its digits. |
| `Timestamp.DecimalEndsWithUnits` | scripts.js:391 | The last character of `String(n)` is n's units digit. |
| `Timestamp.IntDecimal` | scripts.js:396 | `String(year)`, with a leading minus sign for a negative year. `FormatLayout` covers it for years of at least 10. |
| `Timestamp.PadStart` | scripts.js:391 | The result has length max(\|s\|, n). It ends with s, and every character before s is the fill. |
| `Timestamp.LastTwo` | scripts.js:396 | `slice(-2)` gives the last two characters, or the whole string when it is shorter. |
| `Timestamp.PadLongIsIdentity` | scripts.js:391 | `pad` returns a string of two or more characters unchanged. |
| `Timestamp.PadShort` | scripts.js:391 | `pad` of "" is "00", and `pad` of one character c is "0" + c. |
| `Timestamp.PadDecimal` | scripts.js:391 | For n < 100, `pad(String(n))` is n's tens digit followed by its units digit. |
| `Timestamp.LastTwoOfDecimal` | scripts.js:396 | For a year of two or more digits, `String(year).slice(-2)` is the two digits of year mod 100. |
| `Timestamp.OuterPadIsNoOp` | scripts.js:396 | The outer `pad` around the timestamp changes nothing. |
| `Timestamp.FormatLayout` | scripts.js:395-396 | For Date-getter ranges and a year of at least 10, the timestamp is `DD/MM/YY @ HH:MM`, each field zero-padded to two digits, with month + 1 and year mod 100. |
| `Timestamp.FormatLength` | scripts.js:396 | In those ranges the timestamp has 16 characters. |
| `Timestamp.ThirdOfMarch2025` | scripts.js:395-396 | 3 March 2025 at 09:05 renders as `03/03/25 @ 09:05`. |
| `PhaseAccordion.Initial` | scripts.js:413-419 | After set-up: `max-height` 0, `aria-expanded` "false", and the markup's `expanded` and `active` classes. `ToggleTwiceRestores` shows two toggles from plain markup return to it. |
| `PhaseAccordion.Toggle` | scripts.js:422-439 | Flips `expanded`. Afterwards `active`, `aria-expanded == "true"` and `expanded` agree. An expanded panel gets the measured `scrollHeight`. A collapsed panel has height 0. |
| `PhaseAccordion.ToggleTwiceRestores` | scripts.js:414-439 | From plain markup, one toggle expands to the measured height. A second toggle returns exactly to the initial collapsed state. |
| `PhaseAccordion.ToggleTwiceInAgreement` | scripts.js:422-439 | From any agreeing state, two toggles return to it. |
| `PhaseAccordion.PhaseToggle.constructor` | scripts.js:414-420 | After set-up, `max-height` is 0 and `aria-expanded` is "false". The `expanded` and `active` classes are the markup's. |
| `PhaseAccordion.PhaseToggle.HandleToggle` | scripts.js:422-441 | The new state is `Toggle` of the old state and the measured height. |
| `PhaseAccordion.PhaseToggle.KeyDown` | scripts.js:443-448 | Enter and Space prevent the default action and toggle. Other keys change nothing. |

## Left out

- The cursor follower (scripts.js:4-11) is left out. It only copies the pointer coordinates into two styles.
- The animation library is left out (scripts.js:35-46). The model records only the tween that would be requested. Killing the old tween becomes replacing it.
- `setTimeout` delays and resize debouncing are left out (scripts.js:50-64). They are timer behaviour. `InitMarquee` may be called any number of times.
- The clone's `aria-hidden` attribute is left out (scripts.js:22). The clone is counted as one more copy of the content.
- `matchMedia` becomes the `hasHover` parameter (scripts.js:2). Element lookups and presence checks become constructor parameters or presence flags in `Env`.
- The viewer is modelled only for a page that has the video, the image, its container and at least one trigger (scripts.js:209-211).
- URL resolution and `window.open` are left out (scripts.js:345-346). They are browser APIs. A touch-device trigger click records the raw `data-image` path as one new-tab request.
- `preventDefault` on trigger clicks is left out (scripts.js:336). It stops link navigation, which the model does not have.
- `projectImage.src` is left out (scripts.js:355, 370). That property returns an absolute URL. The model keeps the string that was assigned.
- Lightbox targets are assumed to lie inside the `.lightbox` element. That covers its close control, its overlay and its image. So a click on any of them never reaches the unlock branch of the document listener (scripts.js:381-383).
- Before the first hover, the container's inline `display` is empty rather than `none`. The model treats it as hidden, which is what the stylesheet shows.
- The initial `display` of the video, the image container and the lightbox, and the image's markup `src`, come from the page and its stylesheet. The model starts in the idle state: image hidden, video shown, lightbox closed.
- The tooltip's fixed text and element creation are left out (scripts.js:248-257). The tooltip is modelled by its visibility and placement.
- The preview's empty scroll handler is left out (scripts.js:149-152), because it changes nothing.
- The `innerHTML` clearing is folded into replacing the preview's content.
- HoverPreview.PreviewMedia: lower-casing is ASCII only. `toLowerCase` does full Unicode case mapping. Outside ASCII, only U+0130 (capital I with dot) lowers to a letter of `video`, and it lowers to `i` followed by the combining dot U+0307. That extra character keeps the comparison with `video` false, so the result is the same.
- Pixel values are modelled as plain numbers. Tooltip geometry uses reals, and preview placement and marquee widths use integers. Floating-point rounding is not modelled.
- `new Date()` and the external `updateRealtimeTimestamp` hook are left out (scripts.js:392-395). The date fields are parameters. Writing the text into the element is not modelled.
- Timestamp.FormatLayout: the `DD/MM/YY` layout is proved for years of at least 10. For a one-digit or negative year, `Format` still models the script (`slice(-2)` of `String(year)`), but the layout lemma does not cover it.
- Setting the phase toggle's `role` and `tabindex` is left out (scripts.js:418-419). They are constants.
- Toggles whose next sibling is not a `.phase-content` are left out (scripts.js:408-412), since they get no controller.
- The accordion's `max-height` strings are modelled as pixel counts. `'0'` and `'0px'` are both 0.
