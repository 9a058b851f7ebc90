/**
  The screenshot grid of the project modal and the image list it hands to
  the lightbox. The banner always comes first in the list; each screenshot
  follows in order, and each grid item remembers where its image sits.
 */
module Gallery {
  import opened Optional
  import opened Projects

  datatype Image = Image(src: string, caption: string)

  /** A grid cell: the image it shows and the lightbox index its click opens. */
  datatype GridItem = GridItem(src: string, caption: string, lightboxIndex: nat)

  datatype Rendering = Rendering(images: seq<Image>, grid: seq<GridItem>)

  function BannerCaption(title: string): string
  {
    title + " - Main Banner"
  }

  /** The screenshot list, or none when the field is missing or not an array. */
  function ShotsOf(p: ResolvedProject): seq<Screenshot>
  {
    match p.screenshots
    case Some(shots) => shots
    case None => []
  }

  /** A screenshot carries a caption of its own when it is a record with a non-empty caption. */
  predicate HasOwnCaption(shot: Screenshot)
  {
    shot.Captioned? && shot.caption.Some? && shot.caption.value != ""
  }

  /** The lightbox image for one screenshot; a bare locator has the empty caption. */
  function ShotImage(shot: Screenshot, title: string): (img: Image)
    ensures img.src == shot.src
    ensures HasOwnCaption(shot) ==> img.caption == shot.caption.value
    ensures !HasOwnCaption(shot) ==> img.caption == title
  {
    var declared :=
      match shot
      case Bare(_) => ""
      case Captioned(_, caption) => (match caption case Some(c) => c case None => "");
    Image(shot.src, if declared != "" then declared else title)
  }

  /** The images the `forEach` pushes after the banner, one per screenshot. */
  function ShotImages(shots: seq<Screenshot>, title: string): (imgs: seq<Image>)
    ensures |imgs| == |shots|
    ensures forall k :: 0 <= k < |shots| ==> imgs[k] == ShotImage(shots[k], title)
    decreases |shots|
  {
    if |shots| == 0 then []
    else ShotImages(shots[..|shots| - 1], title) + [ShotImage(shots[|shots| - 1], title)]
  }

  /** The grid items the `forEach` adds: item k opens lightbox index k + 1. */
  function ShotGrid(shots: seq<Screenshot>, title: string): (items: seq<GridItem>)
    ensures |items| == |shots|
    ensures forall k :: 0 <= k < |shots| ==>
              && items[k].lightboxIndex == k + 1
              && items[k].src == ShotImage(shots[k], title).src
              && items[k].caption == ShotImage(shots[k], title).caption
    decreases |shots|
  {
    if |shots| == 0 then []
    else
      var k := |shots| - 1;
      var img := ShotImage(shots[k], title);
      ShotGrid(shots[..k], title) + [GridItem(img.src, img.caption, k + 1)]
  }

  /** Every grid item opens the lightbox on the very image the item shows. */
  predicate GridOpensOwnImage(r: Rendering)
  {
    forall g :: 0 <= g < |r.grid| ==>
      && r.grid[g].lightboxIndex < |r.images|
      && r.images[r.grid[g].lightboxIndex].src == r.grid[g].src
      && r.images[r.grid[g].lightboxIndex].caption == r.grid[g].caption
  }

  /**
    The grid: one item per screenshot, or, when there are none, a single
    banner item opening lightbox index 0.
   */
  function Grid(shots: seq<Screenshot>, banner: string, title: string): (grid: seq<GridItem>)
    ensures |shots| == 0 ==> grid == [GridItem(banner, BannerCaption(title), 0)]
    ensures |shots| > 0 ==> |grid| == |shots|
    ensures forall g :: 0 <= g < |grid| ==> grid[g].lightboxIndex == if |shots| == 0 then 0 else g + 1
    ensures |shots| > 0 ==> forall g :: 0 <= g < |grid| ==>
              grid[g].src == ShotImage(shots[g], title).src && grid[g].caption == ShotImage(shots[g], title).caption
  {
    if |shots| == 0 then [GridItem(banner, BannerCaption(title), 0)] else ShotGrid(shots, title)
  }

  /** The lightbox list: the banner first, then one image per screenshot. */
  function LightboxImages(shots: seq<Screenshot>, banner: string, title: string): (images: seq<Image>)
    ensures |images| == |shots| + 1
    ensures images[0] == Image(banner, BannerCaption(title))
    ensures forall k :: 0 <= k < |shots| ==> images[k + 1] == ShotImage(shots[k], title)
  {
    [Image(banner, BannerCaption(title))] + ShotImages(shots, title)
  }

  /** `renderModalScreenshots`: the lightbox image list and the grid built beside it. */
  function RenderScreenshots(p: ResolvedProject, banner: string, title: string): (r: Rendering)
    ensures |r.images| == |ShotsOf(p)| + 1
    ensures r.images[0] == Image(banner, BannerCaption(title))
    ensures forall k :: 0 <= k < |ShotsOf(p)| ==> r.images[k + 1] == ShotImage(ShotsOf(p)[k], title)
    ensures |ShotsOf(p)| == 0 ==> r.grid == [GridItem(banner, BannerCaption(title), 0)]
    ensures |ShotsOf(p)| > 0 ==> |r.grid| == |ShotsOf(p)|
    ensures forall g :: 0 <= g < |r.grid| ==> (r.grid[g].lightboxIndex == 0 <==> |ShotsOf(p)| == 0)
    ensures |ShotsOf(p)| > 0 ==> forall g :: 0 <= g < |r.grid| ==>
              r.grid[g] == GridItem(ShotImage(ShotsOf(p)[g], title).src, ShotImage(ShotsOf(p)[g], title).caption, g + 1)
    ensures GridOpensOwnImage(r)
  {
    var shots := ShotsOf(p);
    var r := Rendering(LightboxImages(shots, banner, title), Grid(shots, banner, title));
    assert GridOpensOwnImage(r) by {
      if |shots| > 0 {
        forall g | 0 <= g < |r.grid|
          ensures r.images[r.grid[g].lightboxIndex] == Image(r.grid[g].src, r.grid[g].caption)
        {
          assert r.grid[g] == ShotGrid(shots, title)[g];
        }
      }
    }
    r
  }
}
