/** The floating media preview shown next to the pointer over the about
    page's work links (scripts.js, the hover-preview block). One preview
    element is created lazily and shared by every link. */
module HoverPreview {

  import opened Common

  const OffsetX: int := 16
  const OffsetY: int := 16
  const PreviewWidth: int := 100
  const PreviewHeight: int := 100

  /** ASCII case folding, standing for `toLowerCase`. */
  function LowerChar(c: char): char
  {
    if 'A' <= c <= 'Z' then (c as int + 32) as char else c
  }

  function ToLower(s: string): string
  {
    seq(|s|, i requires 0 <= i < |s| => LowerChar(s[i]))
  }

  predicate EndsWith(s: string, suffix: string)
  {
    |suffix| <= |s| && s[|s| - |suffix|..] == suffix
  }

  /** The element put inside the preview: a muted, auto-playing, looping,
      inline video, or an image with an empty `alt`. */
  datatype Media =
    | Video(src: string, muted: bool, autoplay: bool, loop: bool, playsInline: bool)
    | Image(src: string, alt: string)

  /** What `showPreview` puts in the preview for a link's `data-preview` and
      `data-preview-type` attributes; None when the source is absent or empty,
      in which case the preview's content is left as it was. */
  function PreviewMedia(src: Option<string>, previewType: Option<string>): (r: Option<Media>)
    ensures r.None? <==> (src.None? || src.value == "")
    ensures r.Some? ==> r.value.src == src.value
    ensures r.Some? ==> (r.value.Video? <==>
      ((previewType.Some? && ToLower(previewType.value) == "video")
        || EndsWith(src.value, ".mp4") || EndsWith(src.value, ".webm")))
    ensures r.Some? && r.value.Video? ==>
      r.value.muted && r.value.autoplay && r.value.loop && r.value.playsInline
    ensures r.Some? && r.value.Image? ==> r.value.alt == ""
  {
    var kind := ToLower(match previewType case Some(t) => t case None => "");
    match src
    case None => None
    case Some(path) =>
      if path == "" then None
      else if kind == "video" || EndsWith(path, ".mp4") || EndsWith(path, ".webm") then
        Some(Video(path, true, true, true, true))
      else
        Some(Image(path, ""))
  }

  lemma WebmIsVideo(name: string)
    ensures PreviewMedia(Some(name + ".webm"), None) == Some(Video(name + ".webm", true, true, true, true))
  {
    var s := name + ".webm";
    assert s[|s| - 5..] == ".webm";
  }

  lemma PngIsImage(name: string)
    ensures PreviewMedia(Some(name + ".png"), None) == Some(Image(name + ".png", ""))
  {
    var s := name + ".png";
    assert s[|s| - 4..] == ".png";
    assert s[|s| - 1] == 'g';
  }

  /** The type attribute is compared without regard to case. */
  lemma TypeIsCaseInsensitive(path: string)
    requires path != ""
    ensures PreviewMedia(Some(path), Some("VIDEO")) == Some(Video(path, true, true, true, true))
    ensures PreviewMedia(Some(path), Some("Video")) == Some(Video(path, true, true, true, true))
  {
    assert ToLower("VIDEO") == "video";
    assert ToLower("Video") == "video";
  }

  /** One axis of `positionPreview`: `offset` pixels past the pointer, or, when
      a box of `size` pixels would then overflow the viewport, `offset` pixels
      before it on the other side. */
  function AxisPlace(client: int, size: int, offset: int, viewport: int): (r: int)
    ensures r == client + offset || r == client - size - offset
    ensures r == client + offset <==> (client + offset + size <= viewport || size + 2 * offset == 0)
    ensures r != client + offset ==> r + size + offset == client && client + offset + size > viewport
  {
    var pos := client + offset;
    if pos + size > viewport then client - size - offset else pos
  }

  datatype Point = Point(left: int, top: int)

  /** The preview's left and top for a pointer at (clientX, clientY) in a
      viewport of innerWidth × innerHeight. */
  function Place(clientX: int, clientY: int, innerWidth: int, innerHeight: int): Point
  {
    Point(AxisPlace(clientX, PreviewWidth, OffsetX, innerWidth),
          AxisPlace(clientY, PreviewHeight, OffsetY, innerHeight))
  }

  /** Each axis is decided on its own: the left edge depends only on the
      pointer's x and the viewport width, the top only on y and the height. */
  lemma AxesIndependent(x1: int, y1: int, w1: int, h1: int, x2: int, y2: int, w2: int, h2: int)
    ensures x1 == x2 && w1 == w2 ==> Place(x1, y1, w1, h1).left == Place(x2, y2, w2, h2).left
    ensures y1 == y2 && h1 == h2 ==> Place(x1, y1, w1, h1).top == Place(x2, y2, w2, h2).top
  {
  }

  /** The preview sits 16 pixels to the right of and below the pointer exactly
      when the 100-pixel box fits there; otherwise it flips to end 16 pixels
      before the pointer on that axis. */
  lemma PlaceFlips(clientX: int, clientY: int, innerWidth: int, innerHeight: int)
    ensures var p := Place(clientX, clientY, innerWidth, innerHeight);
      (p.left == clientX + 16 <==> clientX + 116 <= innerWidth)
      && (p.left != clientX + 16 ==> p.left == clientX - 116)
      && (p.top == clientY + 16 <==> clientY + 116 <= innerHeight)
      && (p.top != clientY + 16 ==> p.top == clientY - 116)
  {
  }

  /** Near the right edge of an 800-pixel viewport the preview flips left. */
  lemma RightEdgeFlips()
    ensures Place(750, 300, 800, 600) == Point(634, 316)
  {
  }

  /** The preview element's `display` style: not yet set, `block` or `none`. */
  datatype Display = Unset | Block | Hidden

  /** The closure state of the hover-preview block: whether the preview element
      was created, its content, display and position, and `isVisible`. */
  class PreviewController {
    const hasHover: bool
    var created: bool
    var content: Option<Media>
    var display: Display
    var position: Option<Point>
    var isVisible: bool

    ghost predicate Valid()
      reads this
    {
      (!created ==> content.None? && display == Unset && position.None?)
      && (isVisible <==> display == Block)
      && (display == Block ==> content.Some? && position.Some?)
    }

    /** The pointer listeners are attached only on hover-capable devices. */
    constructor (hasHover: bool)
      ensures Valid() && this.hasHover == hasHover
      ensures !created && !isVisible
    {
      this.hasHover := hasHover;
      created, content, display, position, isVisible := false, None, Unset, None, false;
    }

    /** `positionPreview`: does nothing before the element exists. */
    method PositionPreview(clientX: int, clientY: int, innerWidth: int, innerHeight: int)
      requires Valid()
      modifies this
      ensures Valid()
      ensures created == old(created) && content == old(content) && display == old(display)
      ensures isVisible == old(isVisible)
      ensures position == if created then Some(Place(clientX, clientY, innerWidth, innerHeight)) else old(position)
    {
      if !created {
        return;
      }
      position := Some(Place(clientX, clientY, innerWidth, innerHeight));
    }

    /** `showPreview`: creates the element if needed; with a source, replaces its
        content, places it and shows it; without one, leaves it as it was. */
    method ShowPreview(src: Option<string>, previewType: Option<string>,
                       clientX: int, clientY: int, innerWidth: int, innerHeight: int)
      requires Valid()
      modifies this
      ensures Valid() && created
      ensures PreviewMedia(src, previewType).None? ==>
        content == old(content) && display == old(display) && position == old(position)
        && isVisible == old(isVisible)
      ensures PreviewMedia(src, previewType).Some? ==>
        content == PreviewMedia(src, previewType) && display == Block && isVisible
        && position == Some(Place(clientX, clientY, innerWidth, innerHeight))
    {
      created := true;
      var media := PreviewMedia(src, previewType);
      if media.None? {
        return;
      }
      content := media;
      PositionPreview(clientX, clientY, innerWidth, innerHeight);
      display := Block;
      isVisible := true;
    }

    /** `hidePreview`: does nothing before the element exists. */
    method HidePreview()
      requires Valid()
      modifies this
      ensures Valid() && !isVisible
      ensures created == old(created) && content == old(content) && position == old(position)
      ensures display == if created then Hidden else old(display)
    {
      if !created {
        return;
      }
      display := Hidden;
      isVisible := false;
    }

    /** The link's `mouseenter` listener (hover devices only). */
    method MouseEnter(src: Option<string>, previewType: Option<string>,
                      clientX: int, clientY: int, innerWidth: int, innerHeight: int)
      requires Valid()
      modifies this
      ensures Valid()
      ensures !hasHover ==>
        created == old(created) && content == old(content)
        && display == old(display) && position == old(position) && isVisible == old(isVisible)
      ensures hasHover ==> created
      ensures hasHover && PreviewMedia(src, previewType).None? ==>
        content == old(content) && display == old(display) && position == old(position)
        && isVisible == old(isVisible)
      ensures hasHover && PreviewMedia(src, previewType).Some? ==>
        content == PreviewMedia(src, previewType) && display == Block && isVisible
        && position == Some(Place(clientX, clientY, innerWidth, innerHeight))
    {
      if hasHover {
        ShowPreview(src, previewType, clientX, clientY, innerWidth, innerHeight);
      }
    }

    /** The link's `mousemove` listener (hover devices only). */
    method MouseMove(clientX: int, clientY: int, innerWidth: int, innerHeight: int)
      requires Valid()
      modifies this
      ensures Valid()
      ensures created == old(created) && content == old(content) && display == old(display)
      ensures isVisible == old(isVisible)
      ensures position == if hasHover && created then Some(Place(clientX, clientY, innerWidth, innerHeight))
                          else old(position)
    {
      if hasHover {
        PositionPreview(clientX, clientY, innerWidth, innerHeight);
      }
    }

    /** The link's `mouseleave` listener (hover devices only). */
    method MouseLeave()
      requires Valid()
      modifies this
      ensures Valid()
      ensures hasHover ==> !isVisible
      ensures created == old(created) && content == old(content) && position == old(position)
      ensures display == if hasHover && created then Hidden else old(display)
      ensures !hasHover ==> isVisible == old(isVisible)
    {
      if hasHover {
        HidePreview();
      }
    }

    /** The link's `blur` listener, attached on every device. */
    method Blur()
      requires Valid()
      modifies this
      ensures Valid() && !isVisible
      ensures created == old(created) && content == old(content) && position == old(position)
      ensures display == if created then Hidden else old(display)
    {
      HidePreview();
    }
  }
}
