/** The project photo wall: thumbnails that stay grey until their photo
    has been opened, and a full-size lightbox with cyclic arrows. The
    React state cells `selectedImage` and `viewedImages` are the fields
    `selected` and `viewed`. */
module GalleryWithLightbox {
  import opened Wrappers
  import opened Cyclic
  import opened PathText

  /** `thumbOf`: every photo's thumbnail lives in `/assets/thumbs/`, named
      after the photo's file name without its extension. */
  function ThumbOf(src: string): (r: string)
    ensures Parent(r) == "/assets/thumbs"
    ensures FileName(r) == BaseName(src) + ".webp"
  {
    var r := "/assets/thumbs/" + BaseName(src) + ".webp";
    ThumbsDirLiteral();
    WebpChild(r, "/assets/thumbs", BaseName(src));
    r
  }

  lemma ThumbsDirLiteral()
    ensures "/assets/thumbs/" == "/assets/thumbs" + "/"
  {
  }

  /** The directory of the photo plays no part: two photos get the same
      thumbnail exactly when their base names agree. */
  lemma ThumbOfIgnoresDirectory(a: string, b: string)
    ensures ThumbOf(a) == ThumbOf(b) <==> BaseName(a) == BaseName(b)
  {
    if ThumbOf(a) == ThumbOf(b) {
      var x, y := BaseName(a) + ".webp", BaseName(b) + ".webp";
      assert x[..|x| - 5] == BaseName(a) && y[..|y| - 5] == BaseName(b);
    }
  }

  class GalleryWithLightbox {
    /** The `images` prop. */
    const images: seq<string>
    /** `selectedImage`: the photo shown in the lightbox, if any. */
    var selected: Option<nat>
    /** `viewedImages`: the photos opened so far. */
    var viewed: set<nat>

    /** The selection is a valid, viewed index, and only valid indices are
        ever recorded as viewed. */
    ghost predicate Valid()
      reads this
    {
      && (selected.Some? ==> selected.value < |images| && selected.value in viewed)
      && forall v :: v in viewed ==> v < |images|
    }

    constructor (images: seq<string>)
      ensures Valid()
      ensures this.images == images && selected == None && viewed == {}
    {
      this.images := images;
      selected := None;
      viewed := {};
    }

    /** `openLightbox(index)`, called by the tile of photo `index`. */
    method OpenLightbox(index: nat)
      requires Valid() && index < |images|
      modifies this
      ensures Valid()
      ensures selected == Some(index)
      ensures viewed == old(viewed) + {index}
    {
      selected := Some(index);
      viewed := viewed + {index};
    }

    /** `closeLightbox()`: hides the lightbox and keeps the viewed set. */
    method CloseLightbox()
      requires Valid()
      modifies this
      ensures Valid()
      ensures selected == None && viewed == old(viewed)
    {
      selected := None;
    }

    /** `nextImage`: with a photo open, move to the next one (wrapping) and
        mark it viewed; with none open, change nothing. */
    method NextImage()
      requires Valid()
      modifies this
      ensures Valid()
      ensures old(selected).None? ==> selected == None && viewed == old(viewed)
      ensures old(selected).Some? ==>
                var j := Next(old(selected).value, |images|);
                selected == Some(j) && viewed == old(viewed) + {j}
    {
      if selected.Some? {
        var i := selected.value;
        var nextIdx := JsRem(i + 1, |images|);
        NextIsRemainder(i, |images|);
        selected := Some(nextIdx);
        viewed := viewed + {nextIdx};
      }
    }

    /** `prevImage`: with a photo open, move to the previous one (wrapping)
        and mark it viewed; with none open, change nothing. */
    method PrevImage()
      requires Valid()
      modifies this
      ensures Valid()
      ensures old(selected).None? ==> selected == None && viewed == old(viewed)
      ensures old(selected).Some? ==>
                var j := Prev(old(selected).value, |images|);
                selected == Some(j) && viewed == old(viewed) + {j}
    {
      if selected.Some? {
        var i := selected.value;
        var prevIdx := JsRem(i - 1 + |images|, |images|);
        PrevIsRemainder(i, |images|);
        selected := Some(prevIdx);
        viewed := viewed + {prevIdx};
      }
    }

    /** The colour classes of tile `index`: in colour once viewed, grey
        (coloured only on hover) before. */
    function TileColour(index: nat): (c: string)
      reads this
      ensures c == "grayscale-0" <==> index in viewed
    {
      if index in viewed then "grayscale-0" else "grayscale group-hover:grayscale-0"
    }
  }
}
