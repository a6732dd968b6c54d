/** The categorised gallery: a grid of category cards; opening one shows
    its photos, and a photo opens in a lightbox with cyclic arrows. The
    React state cells `activeCategory` and `lightboxIndex` are the fields
    of the same names. */
module CategoryGallery {
  import opened Wrappers
  import opened Cyclic
  import opened PathText

  /** `thumbOf` of this component: a photo under `/categories/` has its
      thumbnail in a `thumbs` folder beside it; any other photo has it in
      `/assets/thumbs/`. Both are named `<base>.webp`. */
  function ThumbOf(src: string): (r: string)
    ensures Contains(src, "/categories/") ==> Parent(r) == Parent(src) + "/thumbs"
    ensures !Contains(src, "/categories/") ==> Parent(r) == "/assets/thumbs"
    ensures FileName(r) == BaseName(src) + ".webp"
  {
    var name := BaseName(src);
    SlashLiterals();
    if Contains(src, "/categories/") then
      var r := Parent(src) + "/thumbs/" + name + ".webp";
      AppendSlash(Parent(src), "/thumbs/", "/thumbs");
      WebpChild(r, Parent(src) + "/thumbs", name);
      r
    else
      var r := "/assets/thumbs/" + name + ".webp";
      WebpChild(r, "/assets/thumbs", name);
      r
  }

  lemma SlashLiterals()
    ensures "/thumbs/" == "/thumbs" + "/"
    ensures "/assets/thumbs/" == "/assets/thumbs" + "/"
  {
  }

  lemma ThumbOfCategoryShape(src: string)
    requires Contains(src, "/categories/")
    ensures ThumbOf(src) == Parent(src) + "/thumbs" + "/" + BaseName(src) + ".webp"
  {
    SlashLiterals();
    AppendSlash(Parent(src), "/thumbs/", "/thumbs");
  }

  lemma ThumbOfOtherShape(src: string)
    requires !Contains(src, "/categories/")
    ensures ThumbOf(src) == "/assets/thumbs" + "/" + BaseName(src) + ".webp"
  {
    SlashLiterals();
  }

  /** A `GalleryCategory` record. */
  datatype Category = Category(id: string, name: string, tagline: string, description: string, cover: string, images: seq<string>)

  /** `categories.findIndex(c => c.id === id)`: the first category with
      that id. */
  function FindIndex(categories: seq<Category>, id: string): (r: Option<nat>)
    ensures r.None? <==> forall k :: 0 <= k < |categories| ==> categories[k].id != id
    ensures r.Some? ==> r.value < |categories| && categories[r.value].id == id
    ensures r.Some? ==> forall k :: 0 <= k < r.value ==> categories[k].id != id
  {
    if |categories| == 0 then None
    else if categories[0].id == id then Some(0)
    else
      match FindIndex(categories[1..], id)
      case None => None
      case Some(k) => Some(k + 1)
  }

  /** `categories.find(c => c.id === id)`. */
  function Find(categories: seq<Category>, id: string): (r: Option<Category>)
    ensures r.None? <==> forall c :: c in categories ==> c.id != id
    ensures r.Some? ==> r.value in categories && r.value.id == id
    ensures r.Some? ==> exists k :: 0 <= k < |categories| && categories[k] == r.value
                                    && forall j :: 0 <= j < k ==> categories[j].id != id
  {
    match FindIndex(categories, id)
    case None => None
    case Some(k) => Some(categories[k])
  }

  /** The decimal digit for `d`. */
  function Digit(d: nat): char
    requires d < 10
  {
    ('0' as int + d) as char
  }

  /** The value of a decimal digit character. */
  function DigitValue(c: char): nat
    requires '0' <= c <= '9'
  {
    (c - '0') as nat
  }

  /** JavaScript's `${n}` for a whole number `n >= 0`: its decimal digits,
      without leading zeros. */
  function DecimalString(n: nat): (r: string)
    ensures |r| >= 1
    ensures forall i :: 0 <= i < |r| ==> '0' <= r[i] <= '9'
    ensures |r| > 1 ==> r[0] != '0'
  {
    if n < 10 then [Digit(n)] else DecimalString(n / 10) + [Digit(n % 10)]
  }

  /** Reads a string of decimal digits back as a number. */
  function ParseDecimal(s: string): nat
    requires forall i :: 0 <= i < |s| ==> '0' <= s[i] <= '9'
  {
    if |s| == 0 then 0 else 10 * ParseDecimal(s[..|s| - 1]) + DigitValue(s[|s| - 1])
  }

  /** The decimal text of `n` reads back as `n`, so distinct counts get
      distinct labels. */
  lemma {:induction false} DecimalStringRoundTrip(n: nat)
    ensures ParseDecimal(DecimalString(n)) == n
  {
    if n >= 10 {
      var q, d := n / 10, n % 10;
      DecimalStringRoundTrip(q);
      var s := DecimalString(n);
      assert s == DecimalString(q) + [Digit(d)];
      assert s[..|s| - 1] == DecimalString(q);
      assert DigitValue(s[|s| - 1]) == d;
    }
  }

  /** The count line of a category card. */
  function CountLabel(c: Category): (text: string)
    ensures text == "Coming Soon" <==> |c.images| == 0
    ensures |c.images| > 0 ==>
              && |text| > 9 && text[|text| - 9..] == " Projects"
              && text[..|text| - 9] == DecimalString(|c.images|)
  {
    if |c.images| > 0 then
      var digits := DecimalString(|c.images|);
      var text := digits + " Projects";
      assert text[..|text| - 9] == digits;
      assert text[|text| - 1] == 's';
      text
    else "Coming Soon"
  }

  class CategoryGallery {
    /** The `categories` prop. */
    const categories: seq<Category>
    /** `activeCategory`: the id of the open category, if any. */
    var activeCategory: Option<string>
    /** `lightboxIndex`: the photo of the open category shown in the
        lightbox, if any. */
    var lightboxIndex: Option<nat>

    /** `activeCat`: the category whose id is `activeCategory`. */
    function ActiveCat(): (r: Option<Category>)
      reads this
      ensures activeCategory.None? ==> r.None?
      ensures r.Some? ==> r.value in categories && Some(r.value.id) == activeCategory
      ensures activeCategory.Some? && (exists c :: c in categories && c.id == activeCategory.value) ==> r.Some?
    {
      match activeCategory
      case None => None
      case Some(id) => Find(categories, id)
    }

    /** An open lightbox shows a photo of the open category. */
    ghost predicate Valid()
      reads this
    {
      lightboxIndex.Some? ==>
        ActiveCat().Some? && lightboxIndex.value < |ActiveCat().value.images|
    }

    constructor (categories: seq<Category>)
      ensures Valid()
      ensures this.categories == categories
      ensures activeCategory == None && lightboxIndex == None
    {
      this.categories := categories;
      activeCategory := None;
      lightboxIndex := None;
    }

    /** A click on the card of category `id`; the cards are on screen only
        while no category is open. */
    method SelectCategory(id: string)
      requires Valid() && activeCategory.None?
      modifies this
      ensures Valid()
      ensures activeCategory == Some(id) && lightboxIndex == old(lightboxIndex) == None
    {
      activeCategory := Some(id);
    }

    /** The "All Categories" back button: closes the category and the
        lightbox together. */
    method Back()
      requires Valid()
      modifies this
      ensures Valid()
      ensures activeCategory == None && lightboxIndex == None
    {
      activeCategory := None;
      lightboxIndex := None;
    }

    /** `openLightbox(index)`, called by the tile of photo `index` of the
        open category; the tiles are on screen only when that category
        exists and has photos. */
    method OpenLightbox(index: nat)
      requires Valid()
      requires ActiveCat().Some? && index < |ActiveCat().value.images|
      modifies this
      ensures Valid()
      ensures lightboxIndex == Some(index) && activeCategory == old(activeCategory)
    {
      lightboxIndex := Some(index);
    }

    /** `closeLightbox()`. */
    method CloseLightbox()
      requires Valid()
      modifies this
      ensures Valid()
      ensures lightboxIndex == None && activeCategory == old(activeCategory)
    {
      lightboxIndex := None;
    }

    /** `nextImage`: with a photo open in an existing category, move to the
        next photo, wrapping; otherwise change nothing. */
    method NextImage()
      requires Valid()
      modifies this
      ensures Valid()
      ensures activeCategory == old(activeCategory)
      ensures old(lightboxIndex).None? || old(ActiveCat()).None? ==>
                lightboxIndex == old(lightboxIndex)
      ensures old(lightboxIndex).Some? && old(ActiveCat()).Some? ==>
                lightboxIndex == Some(Next(old(lightboxIndex).value, |old(ActiveCat()).value.images|))
    {
      var activeCat := ActiveCat();
      if lightboxIndex.Some? && activeCat.Some? {
        var i, n := lightboxIndex.value, |activeCat.value.images|;
        var j := JsRem(i + 1, n);
        NextIsRemainder(i, n);
        lightboxIndex := Some(j);
      }
    }

    /** `prevImage`: with a photo open in an existing category, move to the
        previous photo, wrapping; otherwise change nothing. */
    method PrevImage()
      requires Valid()
      modifies this
      ensures Valid()
      ensures activeCategory == old(activeCategory)
      ensures old(lightboxIndex).None? || old(ActiveCat()).None? ==>
                lightboxIndex == old(lightboxIndex)
      ensures old(lightboxIndex).Some? && old(ActiveCat()).Some? ==>
                lightboxIndex == Some(Prev(old(lightboxIndex).value, |old(ActiveCat()).value.images|))
    {
      var activeCat := ActiveCat();
      if lightboxIndex.Some? && activeCat.Some? {
        var i, n := lightboxIndex.value, |activeCat.value.images|;
        var j := JsRem(i - 1 + n, n);
        PrevIsRemainder(i, n);
        lightboxIndex := Some(j);
      }
    }

    /** The condition under which the lightbox is rendered. Under the
        invariant it reduces to "an index is set", and the photo it shows,
        `images[lightboxIndex]`, exists. */
    function LightboxVisible(): (visible: bool)
      reads this
      ensures Valid() ==> (visible <==> lightboxIndex.Some?)
      ensures Valid() && visible ==> lightboxIndex.value < |ActiveCat().value.images|
    {
      var activeCat := ActiveCat();
      lightboxIndex.Some? && activeCat.Some? && |activeCat.value.images| > 0
    }
  }
}
