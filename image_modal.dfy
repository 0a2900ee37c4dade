/**
 * The web gallery's image dialog: choosing a frame, tracking the photo's
 * orientation, and downloading either the original or a composition drawn
 * on a canvas. Images are their dimensions and the canvas is the list of
 * draw calls made on it.
 */
module ImageModal {
  import opened Wrappers
  import opened Text
  import opened Frames

  /** The web catalogue; an overlay is named by its public path. */
  const WebFrameOptions: seq<FrameOption> := [
    FrameOption("none", "Sin marco", None, None),
    FrameOption("frame-1", "Corazones", Some("/frames/frame-1.svg"), Some("/frames/frame-1-landscape.svg")),
    FrameOption("frame-2", "Lazos", Some("/frames/frame-2.svg"), Some("/frames/frame-2-landscape.svg")),
    FrameOption("frame-3", "Brillos", Some("/frames/frame-3.svg"), Some("/frames/frame-3-landscape.svg")),
    FrameOption("frame-4", "Flores", Some("/frames/frame-4.svg"), Some("/frames/frame-4-landscape.svg")),
    FrameOption("frame-5", "Doble borde", Some("/frames/frame-5.svg"), Some("/frames/frame-5-landscape.svg")),
    FrameOption("frame-6", "Noche romantica", Some("/frames/frame-6.svg"), Some("/frames/frame-6-landscape.svg"))
  ]

  lemma WebFrameOptionsCatalogue()
    ensures Catalogue(WebFrameOptions)
  {
  }

  /** The listed image the dialog shows. */
  datatype ModalImage = ModalImage(id: string, url: string, createdAt: string)

  /** A loaded `HTMLImageElement`, by its dimensions. */
  datatype LoadedImage = LoadedImage(naturalWidth: int, naturalHeight: int, width: int, height: int)

  /** `img.naturalWidth || img.width` */
  function RenderedWidth(img: LoadedImage): int {
    if img.naturalWidth != 0 then img.naturalWidth else img.width
  }

  /** `img.naturalHeight || img.height` */
  function RenderedHeight(img: LoadedImage): int {
    if img.naturalHeight != 0 then img.naturalHeight else img.height
  }

  datatype Picture = BasePicture | OverlayPicture(src: string)

  /** `ctx.drawImage(picture, x, y, w, h)` */
  datatype DrawOp = DrawImage(picture: Picture, x: int, y: int, w: int, h: int)

  /** A `<canvas>` element: its size and the draw calls made on its 2D context. */
  class Canvas {
    var width: int
    var height: int
    var ops: seq<DrawOp>

    /** A new canvas has the HTML default size, 300 by 150, and nothing drawn. */
    constructor ()
      ensures width == 300 && height == 150 && ops == []
    {
      width := 300;
      height := 150;
      ops := [];
    }

    method Draw(picture: Picture, x: int, y: int, w: int, h: int)
      modifies this
      ensures width == old(width) && height == old(height)
      ensures ops == old(ops) + [DrawImage(picture, x, y, w, h)]
    {
      ops := ops + [DrawImage(picture, x, y, w, h)];
    }
  }

  /** What a download link points at: a url, or the PNG encoding of a canvas. */
  datatype DownloadHref = Href(url: string) | PngDataUrl(width: int, height: int, ops: seq<DrawOp>)

  /** `downloadHref(href, fileName)` */
  datatype Download = Download(href: DownloadHref, fileName: string)

  const ComposeErrorMessage: string := "No se pudo descargar la composicion. Intenta nuevamente."

  /** `kisscam-${frame.id}-${Date.now()}.png` */
  function DownloadFileName(frameId: string, nowMs: nat): (r: string)
    ensures StartsWith(r, "kisscam-" + frameId + "-") && EndsWith(r, ".png")
  {
    var r := "kisscam-" + frameId + "-" + DecimalString(nowMs) + ".png";
    assert r[..|"kisscam-" + frameId + "-"|] == "kisscam-" + frameId + "-";
    assert r[|r| - 4..] == ".png";
    r
  }

  /**
   * The whole download name: the frame's prefix, then the clock in decimal
   * digits, which read back as the clock value, then the `.png` suffix,
   * and nothing else.
   */
  lemma DownloadFileNameParts(frameId: string, nowMs: nat)
    ensures var r := DownloadFileName(frameId, nowMs);
      && |r| == |"kisscam-" + frameId + "-"| + |DecimalString(nowMs)| + 4
      && var stamp := r[|"kisscam-" + frameId + "-"|..|r| - 4];
        stamp == DecimalString(nowMs) && DecimalValue(stamp) == nowMs
  {
    var prefix := "kisscam-" + frameId + "-";
    var r := DownloadFileName(frameId, nowMs);
    assert r[|prefix|..|r| - 4] == DecimalString(nowMs);
    DecimalRoundTrip(nowMs);
  }

  /**
   * The draw calls of the composition: the base over the whole canvas,
   * then the overlay, if there is one, into the same rectangle.
   */
  function Composition(w: int, h: int, src: Option<string>): seq<DrawOp> {
    [DrawImage(BasePicture, 0, 0, w, h)] + (if src.Some? then [DrawImage(OverlayPicture(src.value), 0, 0, w, h)] else [])
  }

  /**
   * The outcome of `handleDownloadWithFrame` for the selected frame and
   * orientation: the base image failing to load, a missing 2D context or
   * the overlay failing to load give the error message; otherwise the
   * download of the composed canvas.
   */
  function FramedDownload(frame: FrameOption, isLandscape: bool, baseLoad: Option<LoadedImage>, hasContext: bool,
                          overlayLoad: Option<LoadedImage>, nowMs: nat): (r: Result<Download, string>)
  {
    if baseLoad.None? || !hasContext then Err(ComposeErrorMessage)
    else
      var src := ResolveSource(frame, isLandscape);
      if src.Some? && overlayLoad.None? then Err(ComposeErrorMessage)
      else
        var w := RenderedWidth(baseLoad.value);
        var h := RenderedHeight(baseLoad.value);
        Ok(Download(PngDataUrl(w, h, Composition(w, h, src)), DownloadFileName(frame.id, nowMs)))
  }

  /**
   * The composed image has the base image's dimensions and the base drawn
   * first over all of it; an overlay is drawn exactly when the frame has
   * one, into the same rectangle; the file is named after the frame.
   */
  lemma FramedDownloadSpec(frame: FrameOption, isLandscape: bool, baseLoad: Option<LoadedImage>, hasContext: bool,
                           overlayLoad: Option<LoadedImage>, nowMs: nat)
    ensures var r := FramedDownload(frame, isLandscape, baseLoad, hasContext, overlayLoad, nowMs);
      var src := ResolveSource(frame, isLandscape);
      && (r.Err? <==> baseLoad.None? || !hasContext || (src.Some? && overlayLoad.None?))
      && (r.Err? ==> r.error == ComposeErrorMessage)
      && (r.Ok? ==>
            var href := r.value.href;
            && href.PngDataUrl?
            && href.width == RenderedWidth(baseLoad.value) && href.height == RenderedHeight(baseLoad.value)
            && |href.ops| > 0 && href.ops[0] == DrawImage(BasePicture, 0, 0, href.width, href.height)
            && (|href.ops| == 2 <==> src.Some?) && (|href.ops| == 1 <==> src.None?)
            && (forall i :: 0 <= i < |href.ops| ==>
                  href.ops[i].x == 0 && href.ops[i].y == 0 && href.ops[i].w == href.width && href.ops[i].h == href.height)
            && (src.Some? ==> href.ops[1].picture == OverlayPicture(src.value))
            && r.value.fileName == "kisscam-" + frame.id + "-" + DecimalString(nowMs) + ".png")
  {
  }

  /** The overlay's own size never matters: it is stretched over the base. */
  lemma OverlaySizeIrrelevant(frame: FrameOption, isLandscape: bool, baseLoad: Option<LoadedImage>, hasContext: bool,
                              overlay1: LoadedImage, overlay2: LoadedImage, nowMs: nat)
    ensures FramedDownload(frame, isLandscape, baseLoad, hasContext, Some(overlay1), nowMs)
         == FramedDownload(frame, isLandscape, baseLoad, hasContext, Some(overlay2), nowMs)
  {
  }

  /** With `"none"` or an unknown frame selected, only the base image is drawn. */
  lemma NoFrameDrawsBaseOnly(selected: string, isLandscape: bool, base: LoadedImage, overlayLoad: Option<LoadedImage>, nowMs: nat)
    requires selected == NoFrameId || forall i :: 0 <= i < |WebFrameOptions| ==> WebFrameOptions[i].id != selected
    ensures var r := FramedDownload(SelectFrame(WebFrameOptions, selected), isLandscape, Some(base), true, overlayLoad, nowMs);
      var w := RenderedWidth(base);
      var h := RenderedHeight(base);
      r.Ok? && r.value.href == PngDataUrl(w, h, [DrawImage(BasePicture, 0, 0, w, h)])
  {
    WebFrameOptionsCatalogue();
    SelectedOverlay(WebFrameOptions, selected, isLandscape);
  }

  /**
   * The `try` block of `handleDownloadWithFrame`: size a fresh canvas like
   * the base image, draw the base and then the overlay over all of it, and
   * name the result; any failure ends it with the error message.
   */
  method ComposeOnCanvas(frame: FrameOption, isLandscape: bool, baseLoad: Option<LoadedImage>, hasContext: bool,
                         overlayLoad: Option<LoadedImage>, nowMs: nat) returns (r: Result<Download, string>)
    ensures r == FramedDownload(frame, isLandscape, baseLoad, hasContext, overlayLoad, nowMs)
  {
    var src := ResolveSource(frame, isLandscape);
    if baseLoad.None? {
      return Err(ComposeErrorMessage);
    }
    var base := baseLoad.value;
    var canvas := new Canvas();
    canvas.width := RenderedWidth(base);
    canvas.height := RenderedHeight(base);
    if !hasContext {
      return Err(ComposeErrorMessage);
    }
    canvas.Draw(BasePicture, 0, 0, canvas.width, canvas.height);
    assert canvas.ops == [DrawImage(BasePicture, 0, 0, canvas.width, canvas.height)];
    if src.Some? {
      if overlayLoad.None? {
        return Err(ComposeErrorMessage);
      }
      canvas.Draw(OverlayPicture(src.value), 0, 0, canvas.width, canvas.height);
    }
    assert canvas.ops == Composition(canvas.width, canvas.height, src);
    return Ok(Download(PngDataUrl(canvas.width, canvas.height, canvas.ops), DownloadFileName(frame.id, nowMs)));
  }

  /** The dialog's state. */
  class ModalState {
    const image: ModalImage
    var selectedFrame: string
    var isDownloading: bool
    var error: Option<string>
    var isLandscapePhoto: bool
    /** The downloads started so far, in order. */
    var downloads: seq<Download>

    constructor (image: ModalImage)
      ensures this.image == image
      ensures selectedFrame == NoFrameId && !isDownloading && error.None? && !isLandscapePhoto && downloads == []
    {
      this.image := image;
      selectedFrame := NoFrameId;
      isDownloading := false;
      error := None;
      isLandscapePhoto := false;
      downloads := [];
    }

    /** `frame`: the selected option, or `"none"` for an unknown id. */
    function Frame(): FrameOption
      reads this`selectedFrame
    {
      SelectFrame(WebFrameOptions, selectedFrame)
    }

    /** A click on a frame button. */
    method Select(id: string)
      modifies this
      ensures selectedFrame == id
      ensures isDownloading == old(isDownloading) && error == old(error)
      ensures isLandscapePhoto == old(isLandscapePhoto) && downloads == old(downloads)
    {
      selectedFrame := id;
    }

    /**
     * The preload effect's callback: the orientation follows the loaded
     * image only while the dialog is mounted and both dimensions are
     * positive; a square image is portrait.
     */
    method OnPreloaded(img: LoadedImage, mounted: bool)
      modifies this
      ensures var w := RenderedWidth(img);
        var h := RenderedHeight(img);
        isLandscapePhoto == if mounted && w > 0 && h > 0 then w > h else old(isLandscapePhoto)
      ensures selectedFrame == old(selectedFrame) && isDownloading == old(isDownloading)
      ensures error == old(error) && downloads == old(downloads)
    {
      if !mounted {
        return;
      }
      var width := RenderedWidth(img);
      var height := RenderedHeight(img);
      if width > 0 && height > 0 {
        isLandscapePhoto := width > height;
      }
    }

    /** `handleDownloadOriginal`: the image's url, saved under its id. */
    method DownloadOriginal()
      modifies this
      ensures downloads == old(downloads) + [Download(Href(image.url), image.id)]
      ensures selectedFrame == old(selectedFrame) && isDownloading == old(isDownloading)
      ensures error == old(error) && isLandscapePhoto == old(isLandscapePhoto)
    {
      downloads := downloads + [Download(Href(image.url), image.id)];
    }

    /**
     * `handleDownloadWithFrame`, with what the two image loads yield
     * (`None` for a failed load), whether a 2D context is available and
     * `Date.now()` given. It ends with `isDownloading` false either way,
     * with one more download and no error on success, and with the error
     * and no download on failure.
     */
    method DownloadWithFrame(baseLoad: Option<LoadedImage>, hasContext: bool, overlayLoad: Option<LoadedImage>, nowMs: nat)
      modifies this
      ensures !isDownloading
      ensures selectedFrame == old(selectedFrame) && isLandscapePhoto == old(isLandscapePhoto)
      ensures var r := FramedDownload(old(Frame()), old(isLandscapePhoto), baseLoad, hasContext, overlayLoad, nowMs);
        && (r.Ok? ==> downloads == old(downloads) + [r.value] && error.None?)
        && (r.Err? ==> downloads == old(downloads) && error == Some(r.error))
    {
      var frame, landscape := Frame(), isLandscapePhoto;
      isDownloading := true;
      error := None;
      var r := ComposeOnCanvas(frame, landscape, baseLoad, hasContext, overlayLoad, nowMs);
      if r.Ok? {
        downloads := downloads + [r.value];
      } else {
        error := Some(r.error);
      }
      isDownloading := false;
    }
  }
}
