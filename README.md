# Thumbnails and lightboxes of the White Wolf site, in Dafny

The site is a brochure website. Most of its code is markup and animation. This project models the parts that hold logic:

- **`thumbOf`.** The pages derive a thumbnail URL from a photo URL. The category gallery has its own variant, which keeps the thumbnail next to the category's photos. The photo wall uses the plain variant.
- **The lightboxes.** Three components keep an optional "open" index that open, close, next and previous update. Next and previous wrap around with JavaScript's `%`.
  - The photo wall also keeps the set of photos viewed so far.
  - The category gallery also keeps the open category.
- **The quote dialog flag.** A boolean store with two setters.
- **The build script `optimize-images.mjs`.** It lists a photo directory and keeps the image names (case-insensitive `.jpg`, `.jpeg`, `.png`, `.webp`). For each one it:
  - skips the photo when its thumbnail is strictly newer;
  - otherwise asks the image codec for a WebP copy named `path.parse(name).name + '.webp'`;
  - counts the encodes that succeed.

  `main` runs this pass over the photo directory, then over every category directory into that directory's own `thumbs` folder.

## How the pieces are modelled

The modules follow the source files:

- `PathText` holds the string operations the pages and the script share. They are `lastIndexOf`, `split('/').pop()`, `substring`, `includes`, and the replace `/\.\w+$/`.
- `Cyclic` holds JavaScript's truncating `%` and the wrap-around positions.
- `CategoryGallery`, `GalleryWithLightbox`, `ProductGallery` and `QuoteStore` model the components and the store.
  - Each React state cell, or nanostores atom, is a field of a class.
  - Each handler is a method that assigns it.
  - The props are `const` fields.
  - Each of the three lightbox classes has an invariant, `Valid()`: an open index is a valid index. In the photo wall it is also a viewed one. The quote store's flag needs none.
- `ImageOptimizer` models the script.
  - The file system is a value, a map from path to node. A node is a file with its `mtimeMs`, or a directory with its entries in listing order.
  - The operations take the file system and return the new one.
  - `ProcessDirectorySpec` and `RunSpec` are the specifications.
  - The methods `ProcessDirectory` (with its loop `ProcessFiles` and loop body `ProcessFile`) and `Run` (with the category loop `ProcessCategories`) are proved equal to them.
  - The image codec is an oracle: the set `broken` of photos it fails on. It also fails when the photo is not a file, when the output directory is not a directory, or when the output path is a directory.
  - One clock value `now` stamps everything a run writes.
  - For a whole run, the lemmas prove that no file outside the thumbnail directories changes, and that a second run writes nothing and reports 0 new thumbnails once every file is older than the first run's clock.
- `ThumbnailAgreement` connects the pages to the script. The site serves `public/` at `/`. A page finds the script's thumbnail exactly when `"public"` + the URL it asks for is the path the script wrote.
  - The lemmas prove this for every image name with something before its extension, in the photo directory and in every category.
  - They also exhibit the one kind of name where the two disagree: a file named only by its extension, such as `.jpg`. The script writes `.jpg.webp`, because `path.parse` keeps a leading dot. The page asks for `.webp`.

## Model

| member | source | states |
|---|---|---|
| PathText.LastIndexOf | src/components/CategoryGallery.tsx:15 | -1 exactly when the character is absent; otherwise a position holding it with none after it |
| PathText.Split | src/components/CategoryGallery.tsx:12 | at least one piece, no piece holds the separator, the last piece is what follows the last separator |
| PathText.JoinSplit | src/components/CategoryGallery.tsx:12 | joining the pieces of `split` with the separator gives back the string |
| PathText.FileName | src/components/CategoryGallery.tsx:12 | `split('/').pop()` is the text after the last `/` and holds no `/` |
| PathText.Parent | src/components/CategoryGallery.tsx:15 | `substring(0, lastIndexOf('/'))` is a prefix; with a `/` the path is it + `/` + file name; without one it is empty |
| PathText.LastIndexOfJoined | src/components/CategoryGallery.tsx:15 | in `dir/name` with a plain name the last `/` is the joining one |
| PathText.ChildPath | src/components/CategoryGallery.tsx:15 | `dir + "/" + name` has parent `dir` and file name `name` |
| PathText.WebpChild | src/components/CategoryGallery.tsx:16 | `dir/base.webp` has parent `dir` and file name `base.webp` |
| PathText.Contains | src/components/CategoryGallery.tsx:14 | `includes` holds exactly when the text occurs at some position |
| PathText.TrailingWordRun | src/components/CategoryGallery.tsx:12 | the longest run of `\w` characters ending the string |
| PathText.StripExtension | src/components/CategoryGallery.tsx:12 | the replace yields a prefix, and removes something only where `\.\w+$` matches |
| PathText.ExtensionMatchUnique | src/components/CategoryGallery.tsx:12 | `\.\w+$` matches in at most one position |
| PathText.StripExtensionAtMatch | src/components/CategoryGallery.tsx:12 | where it matches, exactly the matched suffix is removed (`a.b.JPG` gives `a.b`) |
| PathText.StripExtensionNoMatch | src/components/CategoryGallery.tsx:12 | without a match the name is kept whole |
| PathText.BaseName | src/components/CategoryGallery.tsx:12 | the last segment, or the last segment cut at a match of `\.\w+$`; never holds a `/` |
| Cyclic.JsRem | src/components/ProductGallery.tsx:25 | JavaScript `%`: smaller than the divisor in size, with the dividend's sign |
| Cyclic.Next | src/components/ProductGallery.tsx:22-27 | the next position stays in `[0, n)` |
| Cyclic.Prev | src/components/ProductGallery.tsx:29-34 | the previous position stays in `[0, n)` |
| Cyclic.NextIsRemainder | src/components/ProductGallery.tsx:25 | `(i + 1) % n` is the next position; the last index wraps to 0 |
| Cyclic.PrevIsRemainder | src/components/ProductGallery.tsx:32 | `(i - 1 + n) % n` is the previous position; 0 wraps to `n - 1` |
| Cyclic.PrevOfNext | src/components/ProductGallery.tsx:22-34 | previous undoes next |
| Cyclic.NextOfPrev | src/components/ProductGallery.tsx:22-34 | next undoes previous |
| Cyclic.NextTimes | src/components/ProductGallery.tsx:22-27 | `k` presses of next stay in range |
| Cyclic.PrevTimes | src/components/ProductGallery.tsx:29-34 | `k` presses of previous stay in range |
| Cyclic.NextTimesIsShift | src/components/ProductGallery.tsx:22-27 | up to `n` presses of next move that many places, wrapping once |
| Cyclic.FullCycleOfNext | src/components/ProductGallery.tsx:22-27 | `n` presses of next return to the start |
| Cyclic.PrevTimesUndoesNextTimes | src/components/ProductGallery.tsx:22-34 | `k` presses of previous undo `k` presses of next |
| CategoryGallery.ThumbOf | src/components/CategoryGallery.tsx:11-20 | a `/categories/` photo's thumbnail is in the photo's directory + `/thumbs`; any other photo's is in `/assets/thumbs`; either is named base name + `.webp` |
| CategoryGallery.FindIndex | src/components/CategoryGallery.tsx:200 | none exactly when no category has the id; otherwise the first with it |
| CategoryGallery.Find | src/components/CategoryGallery.tsx:200 | `find`: none exactly when no category has the id; otherwise the first category with that id |
| CategoryGallery.DecimalString | src/components/CategoryGallery.tsx:70 | `${n}`: one or more decimal digits, no leading zero |
| CategoryGallery.DecimalStringRoundTrip | src/components/CategoryGallery.tsx:70 | the digits read back as the number |
| CategoryGallery.CountLabel | src/components/CategoryGallery.tsx:70 | "Coming Soon" exactly for an empty category; otherwise the count's digits then " Projects" |
| CategoryGallery.CategoryGallery.ActiveCat | src/components/CategoryGallery.tsx:200 | none when no category is open; found whenever some category has the open id, and then a listed category with that id |
| CategoryGallery.CategoryGallery.constructor | src/components/CategoryGallery.tsx:197-198 | nothing is open |
| CategoryGallery.CategoryGallery.SelectCategory | src/components/CategoryGallery.tsx:235 | the clicked category is open, no lightbox; invariant kept |
| CategoryGallery.CategoryGallery.Back | src/components/CategoryGallery.tsx:252 | both the category and the lightbox are closed |
| CategoryGallery.CategoryGallery.OpenLightbox | src/components/CategoryGallery.tsx:202 | the index is set, the category unchanged, invariant kept |
| CategoryGallery.CategoryGallery.CloseLightbox | src/components/CategoryGallery.tsx:203 | the index is cleared, the category unchanged |
| CategoryGallery.CategoryGallery.NextImage | src/components/CategoryGallery.tsx:205-209 | with an index and a found category, the next position among its photos; otherwise nothing changes |
| CategoryGallery.CategoryGallery.PrevImage | src/components/CategoryGallery.tsx:211-215 | with an index and a found category, the previous position; otherwise nothing changes |
| CategoryGallery.CategoryGallery.LightboxVisible | src/components/CategoryGallery.tsx:288 | under the invariant, shown exactly when an index is set, and the index is in range of the category's photos |
| GalleryWithLightbox.ThumbOf | src/components/GalleryWithLightbox.tsx:5-8 | every thumbnail is in `/assets/thumbs`, named base name + `.webp` |
| GalleryWithLightbox.ThumbOfIgnoresDirectory | src/components/GalleryWithLightbox.tsx:5-8 | two photos share a thumbnail exactly when their base names agree |
| GalleryWithLightbox.GalleryWithLightbox.constructor | src/components/GalleryWithLightbox.tsx:15-16 | nothing open, nothing viewed |
| GalleryWithLightbox.GalleryWithLightbox.OpenLightbox | src/components/GalleryWithLightbox.tsx:18-21 | the index is open and added to the viewed set, nothing else added |
| GalleryWithLightbox.GalleryWithLightbox.CloseLightbox | src/components/GalleryWithLightbox.tsx:23 | nothing open, viewed set unchanged |
| GalleryWithLightbox.GalleryWithLightbox.NextImage | src/components/GalleryWithLightbox.tsx:25-32 | the next position is open and added to the viewed set; with nothing open, no change |
| GalleryWithLightbox.GalleryWithLightbox.PrevImage | src/components/GalleryWithLightbox.tsx:34-41 | the previous position is open and added to the viewed set; with nothing open, no change |
| GalleryWithLightbox.GalleryWithLightbox.TileColour | src/components/GalleryWithLightbox.tsx:62 | a tile is in colour exactly when its photo was viewed |
| ProductGallery.ProductGallery.constructor | src/components/ProductGallery.tsx:17 | nothing selected |
| ProductGallery.ProductGallery.OpenLightbox | src/components/ProductGallery.tsx:19 | the clicked product is selected |
| ProductGallery.ProductGallery.CloseLightbox | src/components/ProductGallery.tsx:20 | nothing selected |
| ProductGallery.ProductGallery.NextProduct | src/components/ProductGallery.tsx:22-27 | the next product, wrapping; with none selected, none |
| ProductGallery.ProductGallery.PrevProduct | src/components/ProductGallery.tsx:29-34 | the previous product, wrapping; with none selected, none |
| ProductGallery.ProductGallery.Detail | src/components/ProductGallery.tsx:116 | a product exactly when one is selected, and it is one of the products (the read is in bounds) |
| QuoteStore.QuoteStore.constructor | src/store/quoteStore.ts:3 | the dialog starts closed |
| QuoteStore.QuoteStore.OpenQuoteModal | src/store/quoteStore.ts:5-7 | the flag becomes what an open call gives, whatever it was |
| QuoteStore.QuoteStore.CloseQuoteModal | src/store/quoteStore.ts:9-11 | the flag becomes what a close call gives, whatever it was |
| QuoteStore.After | src/store/quoteStore.ts:5-11 | after one call the flag is set exactly when the call was open |
| QuoteStore.LastCallDecides | src/store/quoteStore.ts:5-11 | after any calls the flag is set exactly when the last call was open |
| QuoteStore.RepeatedCall | src/store/quoteStore.ts:5-11 | repeating a call changes nothing |
| QuoteStore.StartsClosed | src/store/quoteStore.ts:3 | from a fresh store the dialog is open exactly when the last call was open |
| ImageOptimizer.AsciiLower | scripts/optimize-images.mjs:18 | the `i` flag's comparison: ASCII capitals to lower case, all else unchanged |
| ImageOptimizer.Child | scripts/optimize-images.mjs:25 | `path.join(dir, name)`, written `dir/name` |
| ImageOptimizer.IsImageName | scripts/optimize-images.mjs:18 | the name ends in `.jpg`, `.jpeg`, `.png` or `.webp`, letters compared without case |
| ImageOptimizer.Candidates | scripts/optimize-images.mjs:17-19 | each image name as often as listed, and nothing else |
| ImageOptimizer.CandidatesAppend | scripts/optimize-images.mjs:17-19 | filtering keeps listing order: the images of `a + b` are those of `a`, then those of `b` |
| ImageOptimizer.ParseName | scripts/optimize-images.mjs:26 | a prefix of the name; cut only at the last dot, and only when a dot follows the first character and the name is not `..` |
| ImageOptimizer.OutputName | scripts/optimize-images.mjs:26 | `path.parse(file).name` followed by `.webp` |
| ImageOptimizer.OutputNameIsPlain | scripts/optimize-images.mjs:26-27 | the output name of a plain name is plain |
| ImageOptimizer.MakeDir | scripts/optimize-images.mjs:15 | the directory exists and is empty |
| ImageOptimizer.WriteFile | scripts/optimize-images.mjs:42 | the file holds a fresh thumbnail stamped `now`; the directory stays a directory with the same time and lists the name once more only if it was new; no path disappears |
| ImageOptimizer.UpToDate | scripts/optimize-images.mjs:30-34 | the thumbnail exists and its time is strictly greater than the photo's |
| ImageOptimizer.EncodeSucceeds | scripts/optimize-images.mjs:38-42 | the codec accepts the photo, the photo is a file, the output directory is a directory and the output is not one |
| ImageOptimizer.WriteFileFrame | scripts/optimize-images.mjs:42 | writing changes only the file and its directory |
| ImageOptimizer.StepFile | scripts/optimize-images.mjs:24-47 | skipped when the thumbnail is strictly newer; counted exactly when not skipped and the encode succeeds, and then the thumbnail is written at `now`; otherwise nothing changes |
| ImageOptimizer.RunFiles | scripts/optimize-images.mjs:23-47 | the count is at most the number of images |
| ImageOptimizer.Prepared | scripts/optimize-images.mjs:15 | a missing output directory is created; an existing path is left alone |
| ImageOptimizer.ProcessDirectorySpec | scripts/optimize-images.mjs:13-49 | nothing is returned exactly when the input directory is missing, and then nothing changes; `processed <= total` |
| ImageOptimizer.MakeDirWellFormed | scripts/optimize-images.mjs:15 | creating a directory keeps the listings consistent |
| ImageOptimizer.WriteFileWellFormed | scripts/optimize-images.mjs:42 | writing a file keeps the listings consistent |
| ImageOptimizer.RunFilesFrame | scripts/optimize-images.mjs:24-47 | the loop only adds paths; it changes nothing but the output directory and new non-directory entries inside it |
| ImageOptimizer.StepSettles | scripts/optimize-images.mjs:29-46 | after its step, a photo's thumbnail is newer than it or cannot be made |
| ImageOptimizer.RunFilesSettles | scripts/optimize-images.mjs:24-47 | after the loop, every listed photo is settled |
| ImageOptimizer.RunFilesSettledIsIdentity | scripts/optimize-images.mjs:29-36 | over settled photos the loop writes and counts nothing |
| ImageOptimizer.PassEstablishesDone | scripts/optimize-images.mjs:13-49 | when the photos are older than the clock, a pass leaves nothing to do: the output directory exists and every listed image is settled; its total counts the images still listed |
| ImageOptimizer.PassDoneIsIdentity | scripts/optimize-images.mjs:13-49 | a pass with nothing to do, at any time, leaves the file system as it is and counts 0 of its images |
| ImageOptimizer.ProcessDirectoryIdempotent | scripts/optimize-images.mjs:13-49 | when the photos are older than the clock, a second pass right after a first, at any later time, changes nothing and counts 0 of the same total |
| ImageOptimizer.ProcessDirectoryKeepsSources | scripts/optimize-images.mjs:24-47 | every file outside the output directory keeps its node (existence and time), and no file appears there |
| ImageOptimizer.ProcessDirectoryCreatesOutput | scripts/optimize-images.mjs:15 | with an input directory, a missing output directory is created; no path disappears |
| ImageOptimizer.RunFilesWellFormed | scripts/optimize-images.mjs:24-47 | the loop keeps the listings consistent |
| ImageOptimizer.ProcessDirectoryNewPaths | scripts/optimize-images.mjs:14-15 | listings stay consistent; new paths appear only with an input directory, and are the output directory or inside it |
| ImageOptimizer.ProcessDirectoryKeepsDirs | scripts/optimize-images.mjs:13-49 | every directory except the output directory and its parent is untouched |
| ImageOptimizer.PassFrame | scripts/optimize-images.mjs:13-49 | a pass changes no path other than the output directory, its parent and the entries inside the output directory |
| ImageOptimizer.PassKeepsDir | scripts/optimize-images.mjs:13-49 | a pass leaves every directory a directory |
| ImageOptimizer.PassKeepsOtherPass | scripts/optimize-images.mjs:13-49 | a pass keeps another pass done when that pass's directories are out of its reach |
| ImageOptimizer.ProcessFile | scripts/optimize-images.mjs:25-46 | one loop iteration is `StepFile` |
| ImageOptimizer.ProcessFiles | scripts/optimize-images.mjs:23-47 | the loop computes `RunFiles`; count at most the number of images |
| ImageOptimizer.ProcessDirectory | scripts/optimize-images.mjs:13-49 | computes `ProcessDirectorySpec`, keeps listings consistent, `processed <= total` |
| ImageOptimizer.Subdirectories | scripts/optimize-images.mjs:61-63 | each directory entry as often as listed, and nothing else |
| ImageOptimizer.SubdirectoriesAppend | scripts/optimize-images.mjs:61-63 | the category list keeps listing order: the directories of `a + b` are those of `a`, then those of `b` |
| ImageOptimizer.ThumbsOf | scripts/optimize-images.mjs:67 | a category's output directory, `<root>/<cat>/thumbs` |
| ImageOptimizer.RunCategories | scripts/optimize-images.mjs:65-70 | the category loop, in order, each category into its `thumbs`; it stops once a pass throws |
| ImageOptimizer.RunSpec | scripts/optimize-images.mjs:51-78 | a completed run reports exactly when the photo directory exists, with generated at most total |
| ImageOptimizer.RunCategoriesStops | scripts/optimize-images.mjs:65-70 | once a category pass throws, no later category is run |
| ImageOptimizer.RunCategoriesFootprint | scripts/optimize-images.mjs:60-71 | the category loop adds only categories' `thumbs` directories and their entries; run to the end, it gives every existing category its `thumbs` |
| ImageOptimizer.ProcessCategories | scripts/optimize-images.mjs:65-70 | the category loop computes `RunCategories` and keeps listings consistent |
| ImageOptimizer.Run | scripts/optimize-images.mjs:51-78 | computes `RunSpec` and keeps listings consistent |
| ImageOptimizer.RunAddsOnlyThumbnails | scripts/optimize-images.mjs:51-78 | a run only adds paths: the thumbnail directory and its entries, and `thumbs` directories (and entries) inside category directories |
| ImageOptimizer.RunCreatesCategoryThumbs | scripts/optimize-images.mjs:60-71 | a completed run gives every listed category directory its `thumbs` directory |
| ImageOptimizer.RunSkipsMissingCategory | scripts/optimize-images.mjs:60-71 | no `thumbs` directory appears for a category directory that does not exist |
| ImageOptimizer.RunCategoriesKeepsSources | scripts/optimize-images.mjs:65-70 | the category loop changes no file outside the categories' `thumbs` directories |
| ImageOptimizer.RunKeepsSources | scripts/optimize-images.mjs:51-71 | a run changes no file outside the thumbnail directory and the categories' `thumbs`: every photo keeps its node, and no file appears or vanishes elsewhere |
| ImageOptimizer.RunCategoriesKeepsRoots | scripts/optimize-images.mjs:65-70 | the category loop leaves the categories root and the photo directory as they were, and each category name a directory exactly when it was one |
| ImageOptimizer.RunCategoriesDone | scripts/optimize-images.mjs:65-70 | when the category photos are older than the clock, a loop run to the end leaves every category's pass done |
| ImageOptimizer.CategoryLoopIdempotent | scripts/optimize-images.mjs:60-71 | after such a loop the categories listed are the same and the loop again writes nothing |
| ImageOptimizer.RunIdempotent | scripts/optimize-images.mjs:51-78 | when every file is older than the clock and the run completes, a second run at any time writes nothing and reports 0 new thumbnails of the same total |
| ThumbnailAgreement.ImageNameExtension | scripts/optimize-images.mjs:17-19 | every name the script accepts is matched by the pages' `\.\w+$` at its last dot |
| ThumbnailAgreement.ParseNameOfImage | scripts/optimize-images.mjs:26 | for such a name with something before the dot, `path.parse().name` equals the pages' regex strip |
| ThumbnailAgreement.ServedFromOutputDir | scripts/optimize-images.mjs:6 | `/assets/thumbs/x` is served from the output directory |
| ThumbnailAgreement.ServedFromCategoryThumbs | scripts/optimize-images.mjs:67 | `/assets/categories/c/thumbs/x` is served from category `c`'s `thumbs` |
| ThumbnailAgreement.PhotoThumbnailsAgree | src/components/GalleryWithLightbox.tsx:5-8 | the photo wall asks for exactly the file the script writes for a photo |
| ThumbnailAgreement.CategoryThumbnailsAgree | src/components/CategoryGallery.tsx:13-16 | the category page asks for exactly the file the script writes for a category photo |
| ThumbnailAgreement.PagesAgreeOutsideCategories | src/components/CategoryGallery.tsx:18-19 | outside `/categories/` both `thumbOf`s agree |
| ThumbnailAgreement.BareExtensionThumbnailsDiffer | scripts/optimize-images.mjs:26 | for a photo named `.jpg` the script writes `.jpg.webp` but the page asks for `.webp` |

## Left out

- Rendering: JSX, CSS classes other than the tile colour, and framer-motion animation with its floating-point delays.
- The image codec: `sharp`'s resizing to 480 pixels at quality 75, and its pixels, are not modelled. Whether an encode succeeds is the `broken` oracle.
- `path.resolve` and `path.join` normalisation. Paths are the relative constants, joined with a plain `/`.
- MakeDir: `mkdirSync(..., { recursive: true })` also creates missing ancestors, and throws when an ancestor is a file. The model creates only the directory itself, lists it in its parent when that parent is a directory, and otherwise leaves it unlisted instead of throwing. From `main` this does not arise: the categories kept are directories, so `<category>/thumbs` has a directory parent, and `public/assets/thumbs` shares its parent with the existing `public/assets/real-photos`. A direct `processDirectory` call whose output lies under an input that is a file would throw at `mkdirSync`; the model ends that call in `Crashed` at the listing instead and leaves an unlisted output directory behind.
- The order of `readdirSync` is whatever the listing stores. The platform's sort order is not modelled.
- Directory modification times are not advanced when an entry is added.
- Clocks: each file written in a run gets the same time `now`. `Date.now()`, the elapsed time and its `toFixed` formatting are left out. So are console output and `main().catch`.
- A photo removed while a run is going is not modelled, so `statSync` never throws. Thrown errors are modelled where the file system makes one certain when the script lists a directory: an input "directory" that is a file ends `processDirectory` (`Crashed`) and `main` (`Failed`); a categories root that is a file ends `main` (`Failed`).
- ProcessDirectory, Run: these require a well-formed file system, meaning every listed name is a plain name that exists. A real file system always is.
- The lightbox methods (`OpenLightbox` in all three components): these require the index to be in range. The only callers are the tiles of the rendered list.
- `SelectCategory` requires that no category is open, because the cards are rendered only then.
- CategoryGallery.CategoryGallery.OpenLightbox, CategoryGallery.CategoryGallery.SelectCategory: the views are swapped with an exit animation, during which the old view stays on screen for a moment. A click on a photo tile right after "All Categories", or on a card while the category view is fading in, would call these handlers outside the states their preconditions describe (for example opening the lightbox with no category open, which later shows a stale index). That timing window is not modelled.
- Next and previous over an empty product list would compute `NaN`. That is never reached, since nothing can be selected in an empty list.
- React state updates are modelled as immediate assignments. Batching, and props changing while the component is mounted, are left out.
- nanostores subscriptions and notifications are left out.
- ImageOptimizer.RunIdempotent: stated for a first run that completes. A first run that throws (an input "directory" or categories root that is a file) is not covered. The premise that every file is older than the first run's clock leaves out files stamped in the future.
- Cyclic.JsRem: its contract gives the bound and the sign of the remainder, not that `a - r` is a multiple of `b`. The lightboxes use it only through `NextIsRemainder` and `PrevIsRemainder`, which fix its exact value.
- `QuoteModal.tsx`, `QuoteButton.tsx`, `Navbar.tsx`, `BackToTop.tsx` and `siteData.ts` are not part of this model. They are DOM, timer and scroll wiring, a one-line call, and static data.
