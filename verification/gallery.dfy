/** The product image gallery (components/product-image-gallery.tsx): the
    selected image, a zoom flag, and what the controls show. */
module Gallery {
  import opened WrapIndex

  datatype GalleryState = GalleryState(selected: int, zoomed: bool)

  /** First image, not zoomed. */
  const Initial := GalleryState(0, false)

  /** The right arrow. The arrows are only rendered for two or more images,
      so `count` is never zero here. */
  function NextImage(s: GalleryState, count: int): (r: GalleryState)
    requires count > 0
    ensures r.selected == Next(s.selected, count)
    ensures 0 <= s.selected < count ==> 0 <= r.selected < count
    ensures r.zoomed == s.zoomed
  {
    s.(selected := Next(s.selected, count))
  }

  /** The left arrow. */
  function PrevImage(s: GalleryState, count: int): (r: GalleryState)
    requires count > 0
    ensures r.selected == Prev(s.selected, count)
    ensures 0 <= s.selected < count ==> 0 <= r.selected < count
    ensures r.zoomed == s.zoomed
  {
    s.(selected := Prev(s.selected, count))
  }

  /** From the first image, as the gallery mounts, the right arrow shows the
      second image and the left arrow wraps round to the last one. */
  lemma ArrowsFromInitial(count: int)
    requires count > 1
    ensures NextImage(Initial, count) == GalleryState(1, false)
    ensures PrevImage(Initial, count) == GalleryState(count - 1, false)
  {
  }

  /** The arrows undo each other. */
  lemma ArrowsInverse(s: GalleryState, count: int)
    requires 0 <= s.selected < count
    ensures PrevImage(NextImage(s, count), count) == s
    ensures NextImage(PrevImage(s, count), count) == s
  {
    PrevNextInverse(s.selected, count);
  }

  /** With a single image both arrows stay on it. */
  lemma SingleImageStays(s: GalleryState)
    requires s.selected == 0
    ensures NextImage(s, 1) == s && PrevImage(s, 1) == s
  {
  }

  /** A thumbnail click selects that image. */
  function SelectThumbnail(s: GalleryState, k: int): (r: GalleryState)
    ensures r.selected == k && r.zoomed == s.zoomed
  {
    s.(selected := k)
  }

  /** A click on the main image flips zoom. */
  function ToggleZoom(s: GalleryState): (r: GalleryState)
    ensures r.zoomed != s.zoomed && r.selected == s.selected
  {
    s.(zoomed := !s.zoomed)
  }

  /** Two clicks on the main image restore the zoom level. */
  lemma ToggleZoomTwice(s: GalleryState)
    ensures ToggleZoom(ToggleZoom(s)) == s
  {
  }

  /** What the gallery renders besides the images themselves. */
  datatype GalleryView = GalleryView(
    arrows: bool,
    counter: bool,
    thumbnails: bool,
    position: int,     // the counter's left number, 1-based
    total: int,        // the counter's right number
    mainImage: string)

  const Placeholder := "/placeholder.svg"

  /** Arrows, counter and thumbnails only for two or more images; the main
      image falls back to the placeholder when the entry is missing or empty. */
  function View(s: GalleryState, images: seq<string>): (r: GalleryView)
    ensures r.arrows <==> |images| > 1
    ensures r.counter == r.arrows && r.thumbnails == r.arrows
    ensures r.position == s.selected + 1 && r.total == |images|
    ensures 0 <= s.selected < |images| && images[s.selected] != "" ==> r.mainImage == images[s.selected]
    ensures !(0 <= s.selected < |images|) || images[s.selected] == "" ==> r.mainImage == Placeholder
  {
    var multiple := |images| > 1;
    var src := if 0 <= s.selected < |images| && images[s.selected] != "" then images[s.selected] else Placeholder;
    GalleryView(multiple, multiple, multiple, s.selected + 1, |images|, src)
  }
}
