/** The pages and the build script name thumbnails independently: the
    pages strip the extension from the photo's URL with a regular
    expression, the script with `path.parse`. The site serves `public/` at
    the root URL, so a page finds the script's thumbnail exactly when
    `"public"` followed by the URL the page asks for is the path the script
    wrote. */
module ThumbnailAgreement {
  import opened PathText
  import opened ImageOptimizer
  import GalleryWithLightbox
  import CategoryGallery

  lemma LastDotAt(f: string, p: nat)
    requires p < |f| && f[p] == '.' && forall i :: p < i < |f| ==> f[i] != '.'
    ensures LastIndexOf(f, '.') == p
  {
  }

  lemma LoweredExtension(f: string, ext: string)
    requires EndsWithIgnoringCase(f, ext) && |ext| >= 2 && ext[0] == '.'
    requires forall i :: 0 < i < |ext| ==> 'a' <= ext[i] <= 'z'
    ensures ExtensionMatchAt(f, |f| - |ext|) && LastIndexOf(f, '.') == |f| - |ext|
  {
    var p := |f| - |ext|;
    assert AsciiLower(f[p + 0]) == '.';
    forall i | p < i < |f|
      ensures IsWordChar(f[i]) && f[i] != '.'
    {
      assert AsciiLower(f[p + (i - p)]) == ext[i - p];
    }
    LastDotAt(f, p);
  }

  /** An image name (for the script) ends in a dot and letters, so the
      regular expression of the pages matches at its last dot. */
  lemma ImageNameExtension(f: string)
    requires IsImageName(f)
    ensures ExtensionMatchAt(f, LastIndexOf(f, '.'))
  {
    if EndsWithIgnoringCase(f, ".jpg") {
      LoweredExtension(f, ".jpg");
    } else if EndsWithIgnoringCase(f, ".jpeg") {
      LoweredExtension(f, ".jpeg");
    } else if EndsWithIgnoringCase(f, ".png") {
      LoweredExtension(f, ".png");
    } else {
      LoweredExtension(f, ".webp");
    }
  }

  /** For an image name with something before its extension, the script's
      `path.parse(f).name` and the pages' regular expression agree. */
  lemma ParseNameOfImage(f: string)
    requires IsImageName(f) && LastIndexOf(f, '.') > 0
    ensures ParseName(f) == StripExtension(f)
  {
    ImageNameExtension(f);
    StripExtensionAtMatch(f, LastIndexOf(f, '.'));
  }

  /** The URL `/assets/thumbs/<base>.webp` is served from the script's
      output directory. */
  lemma ServedFromOutputDir(base: string)
    ensures "public" + ("/assets/thumbs/" + base + ".webp") == Child(OUTPUT_DIR, base + ".webp")
  {
    assert "public" + "/assets/thumbs/" == OUTPUT_DIR + "/";
  }

  /** The URL `/assets/categories/<cat>/thumbs/<base>.webp` is served from
      the category's `thumbs` directory. */
  lemma ServedFromCategoryThumbs(cat: string, base: string)
    ensures "public" + ("/assets/categories/" + cat + "/thumbs" + "/" + base + ".webp")
         == Child(ThumbsOf(CATEGORY_DIR, cat), base + ".webp")
  {
    assert "public" + "/assets/categories/" == CATEGORY_DIR + "/";
  }

  lemma NameOfPhotoUrl(dir: string, f: string)
    requires '/' !in f
    ensures BaseName(dir + "/" + f) == StripExtension(f)
    ensures Parent(dir + "/" + f) == dir
  {
    ChildPath(dir, f);
  }

  /** The photo gallery asks for the very file the script writes for a
      photo of the photo directory. */
  lemma PhotoThumbnailsAgree(f: string)
    requires '/' !in f && IsImageName(f) && LastIndexOf(f, '.') > 0
    ensures "public" + GalleryWithLightbox.ThumbOf("/assets/real-photos/" + f) == Child(OUTPUT_DIR, OutputName(f))
  {
    var src := "/assets/real-photos/" + f;
    assert src == "/assets/real-photos" + "/" + f;
    NameOfPhotoUrl("/assets/real-photos", f);
    ParseNameOfImage(f);
    ServedFromOutputDir(ParseName(f));
  }

  lemma CategoryUrl(cat: string, f: string)
    ensures Contains("/assets/categories/" + cat + "/" + f, "/categories/")
  {
    var src := "/assets/categories/" + cat + "/" + f;
    assert src[7..][..12] == "/categories/";
    assert OccursAt(src, "/categories/", 7);
  }

  /** The category page asks for the very file the script writes for a
      photo of a category directory. */
  lemma CategoryThumbnailsAgree(cat: string, f: string)
    requires '/' !in cat && '/' !in f && IsImageName(f) && LastIndexOf(f, '.') > 0
    ensures "public" + CategoryGallery.ThumbOf("/assets/categories/" + cat + "/" + f)
         == Child(ThumbsOf(CATEGORY_DIR, cat), OutputName(f))
  {
    var dir := "/assets/categories/" + cat;
    var src := dir + "/" + f;
    CategoryUrl(cat, f);
    CategoryGallery.ThumbOfCategoryShape(src);
    NameOfPhotoUrl(dir, f);
    ParseNameOfImage(f);
    ServedFromCategoryThumbs(cat, ParseName(f));
  }

  /** Outside the category directories the two pages name thumbnails
      alike. */
  lemma PagesAgreeOutsideCategories(src: string)
    requires !Contains(src, "/categories/")
    ensures CategoryGallery.ThumbOf(src) == GalleryWithLightbox.ThumbOf(src)
  {
    CategoryGallery.ThumbOfOtherShape(src);
  }

  lemma ScriptNameOfBareExtension()
    ensures IsImageName(".jpg") && OutputName(".jpg") == ".jpg.webp"
  {
    var f := ".jpg";
    assert EndsWithIgnoringCase(f, ".jpg");
    LastDotAt(f, 0);
    assert ParseName(f) == f;
  }

  lemma BareExtensionStripped()
    ensures StripExtension(".jpg") == ""
  {
    assert ExtensionMatchAt(".jpg", 0);
    StripExtensionAtMatch(".jpg", 0);
  }

  lemma PageNameOfBareExtension()
    ensures "public" + GalleryWithLightbox.ThumbOf("/assets/real-photos/.jpg") == Child(OUTPUT_DIR, ".webp")
  {
    var src := "/assets/real-photos/.jpg";
    assert src == "/assets/real-photos" + "/" + ".jpg";
    NameOfPhotoUrl("/assets/real-photos", ".jpg");
    BareExtensionStripped();
    ServedFromOutputDir(BaseName(src));
    assert BaseName(src) + ".webp" == ".webp";
  }

  /** A photo named only by its extension falls between the two: the
      script writes `.jpg.webp`, because `path.parse` keeps a leading dot,
      while the page strips the whole name and asks for `.webp`. */
  lemma BareExtensionThumbnailsDiffer()
    ensures IsImageName(".jpg")
    ensures "public" + GalleryWithLightbox.ThumbOf("/assets/real-photos/.jpg") != Child(OUTPUT_DIR, OutputName(".jpg"))
  {
    ScriptNameOfBareExtension();
    PageNameOfBareExtension();
    assert Child(OUTPUT_DIR, ".webp")[21..] == ".webp";
    assert Child(OUTPUT_DIR, ".jpg.webp")[21..] == ".jpg.webp";
  }
}
