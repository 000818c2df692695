/** The dashboard's image gallery over the `galeria` storage bucket: the listing turned into
    image records, the search and type filters, deletion and the summary counters. */
module Gallery {
  import opened Wrappers
  import opened JsText
  import Seqs

  /** A file as the storage listing returns it; absent metadata fields are `None`. */
  datatype StorageFile = StorageFile(
    id: Option<string>,
    name: string,
    size: Option<int>,
    mimeType: Option<string>,
    createdAt: Option<string>)

  datatype GalleryImage = GalleryImage(
    id: string,
    name: string,
    url: string,
    size: int,
    mimeType: string,
    createdAt: string)

  const DefaultMimeType := "image/jpeg"

  /** The record built for one listed file, given its public URL and the current time: the
      id falls back to the name, the size to 0, the type to `image/jpeg` and the creation
      time to now. */
  function ToGalleryImage(f: StorageFile, publicUrl: string, now: string): (img: GalleryImage)
    ensures img.name == f.name && img.url == publicUrl
    ensures img.id == OptOrElse(f.id, f.name)
    ensures img.size == (if f.size.Some? then f.size.value else 0)
    ensures img.mimeType == OptOrElse(f.mimeType, DefaultMimeType) && img.mimeType != ""
    ensures img.createdAt == OptOrElse(f.createdAt, now)
  {
    GalleryImage(OptOrElse(f.id, f.name), f.name, publicUrl, f.size.GetOr(0),
                 OptOrElse(f.mimeType, DefaultMimeType), OptOrElse(f.createdAt, now))
  }

  /** `name.match(/\.(e1|e2|...)$/i)` for the extensions listed. */
  predicate HasExtension(name: string, extensions: seq<string>) {
    exists k :: 0 <= k < |extensions| && EndsWithIgnoringCase(name, extensions[k])
  }

  const GalleryExtensions := [".jpg", ".jpeg", ".png", ".gif", ".webp", ".svg"]

  predicate IsGalleryImage(name: string) {
    HasExtension(name, GalleryExtensions)
  }

  /** `files.map(...)` with the record of each file, in listing order. */
  function ConvertAll(files: seq<StorageFile>, publicUrl: string -> string, now: string): (r: seq<GalleryImage>)
    ensures |r| == |files|
    ensures forall k :: 0 <= k < |files| ==> r[k] == ToGalleryImage(files[k], publicUrl(files[k].name), now)
  {
    seq(|files|, k requires 0 <= k < |files| => ToGalleryImage(files[k], publicUrl(files[k].name), now))
  }

  function NameKept(keep: string -> bool): GalleryImage -> bool {
    (img: GalleryImage) => keep(img.name)
  }

  /** The converted files whose names pass `keep`, in listing order. */
  function ListedImages(files: seq<StorageFile>, publicUrl: string -> string, now: string, keep: string -> bool): (images: seq<GalleryImage>)
    ensures |images| <= |files|
    ensures forall i :: 0 <= i < |images| ==> keep(images[i].name)
    ensures Seqs.IsSubsequence(images, ConvertAll(files, publicUrl, now))
    ensures forall k :: 0 <= k < |files| && keep(files[k].name) ==>
      ToGalleryImage(files[k], publicUrl(files[k].name), now) in images
  {
    var all := ConvertAll(files, publicUrl, now);
    Seqs.FilterIsSubsequence(all, NameKept(keep));
    Seqs.Filter(all, NameKept(keep))
  }

  function NameMatches(t: Tables, term: string): GalleryImage -> bool {
    (img: GalleryImage) => Contains(ToLower(t, img.name), ToLower(t, term))
  }

  function TypeMatches(filterType: string): GalleryImage -> bool {
    (img: GalleryImage) => Contains(img.mimeType, filterType)
  }

  /** `img.name.toLowerCase().includes(term.toLowerCase())` when the term is not blank (its
      `trim()` is non-empty, see `TrimEmptyIffAllSpace`), and
      `img.type.includes(filterType)` unless the type filter is `"all"`. */
  predicate MatchesImage(t: Tables, img: GalleryImage, term: string, filterType: string) {
    (IsBlank(term) || NameMatches(t, term)(img)) && (filterType == "all" || TypeMatches(filterType)(img))
  }

  /** `filterImages()`: the images that match both filters, in their order. */
  function FilterImages(t: Tables, images: seq<GalleryImage>, term: string, filterType: string): (r: seq<GalleryImage>)
    ensures |r| <= |images|
  {
    var bySearch := Seqs.FilterWhen(!IsBlank(term), images, NameMatches(t, term));
    Seqs.FilterWhen(filterType != "all", bySearch, TypeMatches(filterType))
  }

  /** The filtered view is the subsequence of the images that match both filters: every
      image in it matches, every matching image is in it, and with a blank search and the
      type filter on `"all"` it is every image. */
  lemma FilterImagesSelects(t: Tables, images: seq<GalleryImage>, term: string, filterType: string)
    ensures Seqs.IsSubsequence(FilterImages(t, images, term, filterType), images)
    ensures forall i :: 0 <= i < |FilterImages(t, images, term, filterType)| ==>
      MatchesImage(t, FilterImages(t, images, term, filterType)[i], term, filterType)
    ensures forall i :: 0 <= i < |images| && MatchesImage(t, images[i], term, filterType) ==>
      images[i] in FilterImages(t, images, term, filterType)
    ensures IsBlank(term) && filterType == "all" ==> FilterImages(t, images, term, filterType) == images
  {
    var bySearch := Seqs.FilterWhen(!IsBlank(term), images, NameMatches(t, term));
    var byType := Seqs.FilterWhen(filterType != "all", bySearch, TypeMatches(filterType));
    Seqs.FilterWhenSelects(!IsBlank(term), images, NameMatches(t, term));
    Seqs.FilterWhenSelects(filterType != "all", bySearch, TypeMatches(filterType));
    Seqs.SubsequenceTransitive(byType, bySearch, images);
    Seqs.SubsequenceMembers(byType, bySearch);
    Seqs.SubsequenceMembers(bySearch, images);
  }

  function NameIsNot(fileName: string): GalleryImage -> bool {
    (img: GalleryImage) => img.name != fileName
  }

  /** `images.filter(img => img.name !== fileName)`. */
  function WithoutName(images: seq<GalleryImage>, fileName: string): (r: seq<GalleryImage>)
    ensures |r| <= |images|
  {
    Seqs.Filter(images, NameIsNot(fileName))
  }

  /** Deleting keeps exactly the images of other names, in their order. */
  lemma WithoutNameRemoves(images: seq<GalleryImage>, fileName: string)
    ensures Seqs.IsSubsequence(WithoutName(images, fileName), images)
    ensures forall i :: 0 <= i < |WithoutName(images, fileName)| ==> WithoutName(images, fileName)[i].name != fileName
    ensures forall i :: 0 <= i < |images| && images[i].name != fileName ==> images[i] in WithoutName(images, fileName)
  {
    Seqs.FilterIsSubsequence(images, NameIsNot(fileName));
  }

  datatype ImageStats = ImageStats(totalSize: int, jpegCount: int, pngCount: int, gifCount: int, webpCount: int)
  {
    /** The "Outros" tile. */
    function OtherCount(): int {
      gifCount + webpCount
    }
  }

  function Size(img: GalleryImage): int {
    img.size
  }

  /** `images.filter(img => img.type.includes(marker)).length`. */
  function CountOfType(images: seq<GalleryImage>, marker: string): (n: nat)
    ensures n <= |images|
  {
    |Seqs.Filter(images, TypeMatches(marker))|
  }

  /** The count grows by one exactly for each image whose type mentions the marker: it is 0
      for no images and adds 1 for an appended image whose type contains the marker. */
  lemma CountOfTypeSteps(images: seq<GalleryImage>, img: GalleryImage, marker: string)
    ensures CountOfType([], marker) == 0
    ensures CountOfType(images + [img], marker)
         == CountOfType(images, marker) + (if Contains(img.mimeType, marker) then 1 else 0)
  {
    Seqs.FilterAppend(images, [img], TypeMatches(marker));
  }

  /** `getImageStats()`: the total size and how many types mention each format. */
  function GetImageStats(images: seq<GalleryImage>): (s: ImageStats)
    ensures s.totalSize == Seqs.Sum(images, Size)
    ensures (forall i :: 0 <= i < |images| ==> images[i].size >= 0) ==> s.totalSize >= 0
    ensures 0 <= s.jpegCount <= |images| && 0 <= s.pngCount <= |images|
    ensures 0 <= s.gifCount <= |images| && 0 <= s.webpCount <= |images|
    ensures s.jpegCount == CountOfType(images, "jpeg") && s.pngCount == CountOfType(images, "png")
    ensures s.gifCount == CountOfType(images, "gif") && s.webpCount == CountOfType(images, "webp")
  {
    assert (forall i :: 0 <= i < |images| ==> images[i].size >= 0) ==> Seqs.Sum(images, Size) >= 0 by {
      if forall i :: 0 <= i < |images| ==> images[i].size >= 0 {
        Seqs.SumNonNegative(images, Size);
      }
    }
    ImageStats(Seqs.Sum(images, Size), CountOfType(images, "jpeg"), CountOfType(images, "png"),
               CountOfType(images, "gif"), CountOfType(images, "webp"))
  }

  function NameIs(fileName: string): GalleryImage -> bool {
    (img: GalleryImage) => img.name == fileName
  }

  /** Deleting a file takes exactly the sizes of the images with that name off the total. */
  lemma DeleteReducesTotal(images: seq<GalleryImage>, fileName: string)
    ensures GetImageStats(WithoutName(images, fileName)).totalSize
         == GetImageStats(images).totalSize - Seqs.Sum(Seqs.Filter(images, NameIs(fileName)), Size)
  {
    Seqs.SumSplitsByFilter(images, NameIsNot(fileName), NameIs(fileName), Size);
  }

  /** What the page shows besides the filtered view: the loaded images, the two filter
      inputs and the loading flag. */
  datatype View = View(images: seq<GalleryImage>, searchTerm: string, filterType: string, loading: bool)

  /** The page's effect has run: the filtered view is computed from the current images and filters. */
  predicate Current(t: Tables, v: View, filtered: seq<GalleryImage>) {
    filtered == FilterImages(t, v.images, v.searchTerm, v.filterType)
  }

  class GalleryPage {
    const tables: Tables
    var view: View
    var filteredImages: seq<GalleryImage>

    predicate Valid()
      reads this
    {
      Current(tables, view, filteredImages)
    }

    constructor (t: Tables)
      ensures tables == t && view == View([], "", "all", true)
      ensures Valid()
    {
      tables := t;
      view := View([], "", "all", true);
      filteredImages := [];
    }

    /** `loadImages()` given the listing (or `Threw` when it failed) and the bucket's public
        URL for each name: the listed image files replace the images; a failure keeps them;
        either way loading ends. */
    method LoadImages(listing: Outcome<seq<StorageFile>>, publicUrl: string -> string, now: string)
      requires Valid()
      modifies this
      ensures Valid()
      ensures listing.Returned? ==>
        view == old(view).(images := ListedImages(listing.value, publicUrl, now, IsGalleryImage), loading := false)
      ensures listing.Threw? ==> view == old(view).(loading := false)
    {
      var v := view.(loading := true);
      if listing.Returned? {
        v := v.(images := ListedImages(listing.value, publicUrl, now, IsGalleryImage));
      }
      v := v.(loading := false);
      view := v;
      filteredImages := FilterImages(tables, v.images, v.searchTerm, v.filterType);
    }

    method SetSearchTerm(term: string)
      requires Valid()
      modifies this
      ensures Valid() && view == old(view).(searchTerm := term)
    {
      var v := view.(searchTerm := term);
      view := v;
      filteredImages := FilterImages(tables, v.images, v.searchTerm, v.filterType);
    }

    method SetFilterType(kind: string)
      requires Valid()
      modifies this
      ensures Valid() && view == old(view).(filterType := kind)
    {
      var v := view.(filterType := kind);
      view := v;
      filteredImages := FilterImages(tables, v.images, v.searchTerm, v.filterType);
    }

    /** `deleteImage(fileName)` given whether the storage removal succeeded: on success the
        images of that name leave the list; on failure nothing changes. */
    method DeleteImage(fileName: string, removed: bool)
      requires Valid()
      modifies this
      ensures Valid()
      ensures removed ==> view == old(view).(images := WithoutName(old(view.images), fileName))
      ensures !removed ==> view == old(view)
    {
      var v := view.(images := if removed then WithoutName(view.images, fileName) else view.images);
      view := v;
      filteredImages := FilterImages(tables, v.images, v.searchTerm, v.filterType);
    }
  }
}
