/**
 * The frame catalogue both clients carry: each frame has an id, a caption (its `label`)
 * and an optional overlay for portrait and for landscape photos. The
 * first entry of each catalogue is the `"none"` frame, which has neither.
 */
module Frames {
  import opened Wrappers

  /** An overlay is named by its asset path. */
  datatype FrameOption = FrameOption(id: string, caption: string, portrait: Option<string>, landscape: Option<string>)

  const NoFrameId: string := "none"

  /**
   * `resolveFrameSource` and `resolveFrameSrc`: the variant for the
   * photo's orientation when there is one, otherwise the other variant.
   */
  function ResolveSource(frame: FrameOption, isLandscape: bool): (r: Option<string>)
    ensures r.None? <==> frame.portrait.None? && frame.landscape.None?
    ensures isLandscape && frame.landscape.Some? ==> r == frame.landscape
    ensures !isLandscape && frame.portrait.Some? ==> r == frame.portrait
    ensures r == frame.portrait || r == frame.landscape
  {
    if isLandscape then
      (if frame.landscape.Some? then frame.landscape else frame.portrait)
    else
      (if frame.portrait.Some? then frame.portrait else frame.landscape)
  }

  /** `options.find((item) => item.id === id)`: the first option with that id. */
  function Find(options: seq<FrameOption>, id: string): (r: Option<nat>)
    ensures r.None? <==> forall i :: 0 <= i < |options| ==> options[i].id != id
    ensures r.Some? ==> r.value < |options| && options[r.value].id == id
                        && forall i :: 0 <= i < r.value ==> options[i].id != id
  {
    if options == [] then None
    else if options[0].id == id then Some(0)
    else match Find(options[1..], id)
      case None => None
      case Some(k) => Some(k + 1)
  }

  /** `find(...) ?? options[0]`: an unknown id selects the first option. */
  function SelectFrame(options: seq<FrameOption>, id: string): (r: FrameOption)
    requires |options| > 0
    ensures r in options
    ensures (exists i :: 0 <= i < |options| && options[i].id == id) ==> r.id == id
    ensures (forall i :: 0 <= i < |options| ==> options[i].id != id) ==> r == options[0]
  {
    match Find(options, id)
    case None => options[0]
    case Some(k) => options[k]
  }

  /**
   * A well-formed catalogue: it starts with the `"none"` frame, which has
   * no overlay, and every other frame has both variants.
   */
  predicate Catalogue(options: seq<FrameOption>) {
    && |options| > 0
    && options[0].id == NoFrameId && options[0].portrait.None? && options[0].landscape.None?
    && forall i :: 0 < i < |options| ==> options[i].portrait.Some? && options[i].landscape.Some?
  }

  /**
   * In a catalogue, a selection draws no overlay exactly when it is
   * `"none"` or unknown; otherwise the overlay matches the orientation.
   */
  lemma SelectedOverlay(options: seq<FrameOption>, id: string, isLandscape: bool)
    requires Catalogue(options)
    ensures var frame := SelectFrame(options, id);
      var src := ResolveSource(frame, isLandscape);
      && (src.None? <==> id == NoFrameId || forall i :: 0 <= i < |options| ==> options[i].id != id)
      && (src.Some? ==> src == (if isLandscape then frame.landscape else frame.portrait))
  {
    var frame := SelectFrame(options, id);
    match Find(options, id)
    case None =>
    case Some(k) =>
      assert frame == options[k];
      if k == 0 { assert id == NoFrameId; }
  }
}
