/** The dashboard's rich-text editor page: the draft fields, the checks before saving,
    the record it inserts (slug, excerpt fallback, comma-separated tags), the reset after
    a successful insert, the preview, the font-size prompt and the image picker. */
module Editor {
  import opened Wrappers
  import opened JsText
  import Seqs
  import BlogStore
  import Gallery

  /** `s.split(",").map(tag => tag.trim())`. */
  function TrimAll(parts: seq<string>): (r: seq<string>)
    ensures |r| == |parts|
    ensures forall k :: 0 <= k < |parts| ==> r[k] == Trim(parts[k])
  {
    seq(|parts|, k requires 0 <= k < |parts| => Trim(parts[k]))
  }

  /** `Boolean` on a string. */
  predicate IsNonEmpty(s: string) {
    s != ""
  }

  /** A tag as stored: non-empty, without a comma and without surrounding whitespace. */
  predicate IsCleanTag(t: string) {
    t != "" && ',' !in t && Trim(t) == t
  }

  /** `tags.split(",").map(tag => tag.trim()).filter(Boolean)`. */
  function ParseTags(s: string): (tags: seq<string>)
    ensures forall k :: 0 <= k < |tags| ==> IsCleanTag(tags[k])
    ensures Seqs.IsSubsequence(tags, TrimAll(Split(s, ',')))
    ensures forall k :: 0 <= k < |Split(s, ',')| && Trim(Split(s, ',')[k]) != "" ==> Trim(Split(s, ',')[k]) in tags
  {
    var parts := Split(s, ',');
    var pieces := TrimAll(parts);
    forall j | 0 <= j < |pieces| && pieces[j] != "" ensures IsCleanTag(pieces[j]) {
      TrimKeepsOut(parts[j], ',');
      TrimIdempotent(parts[j]);
    }
    Seqs.FilterIsSubsequence(pieces, IsNonEmpty);
    Seqs.Filter(pieces, IsNonEmpty)
  }

  /** Writing clean tags separated by commas and parsing them gives the same tags back. */
  lemma {:induction false} ParseJoinedTags(ts: seq<string>)
    requires forall k :: 0 <= k < |ts| ==> IsCleanTag(ts[k])
    ensures ParseTags(Join(ts, ',')) == ts
  {
    if ts == [] {
      assert Split("", ',') == [""];
      TrimWithoutSpaces("");
      assert TrimAll([""]) == [""];
      assert Seqs.Filter([""], IsNonEmpty) == [];
    } else {
      SplitJoin(ts, ',');
      assert TrimAll(ts) == ts;
      Seqs.FilterKeepsAll(ts, IsNonEmpty);
    }
  }

  /** `excerpt || title.substring(0, 150)`. */
  function Excerpt(excerpt: string, title: string): (r: string)
    ensures excerpt != "" ==> r == excerpt
    ensures excerpt == "" ==> |r| == (if |title| <= 150 then |title| else 150) && r == title[..|r|]
  {
    OrElse(excerpt, Seqs.Slice0(title, 150))
  }

  /** Without an excerpt a title of at most 150 characters is used whole, and a longer one
      is cut to its first 150. */
  lemma ExcerptFallback(title: string)
    ensures |title| <= 150 ==> Excerpt("", title) == title
    ensures |title| > 150 ==> Excerpt("", title) == title[..150]
  {
    assert title[..|title|] == title;
  }

  /** `changeFontSize()` given the prompt's answer (`None` when it was cancelled): the size
      string passed to the `fontSize` command, applied only when the answer is non-empty and
      parses to an integer from 1 to 7. */
  function FontSizeCommand(answer: Option<string>): (applied: Option<string>)
    ensures applied.Some? <==> answer.Some? && answer.value != "" && ParseInt(answer.value).Some?
                               && 1 <= ParseInt(answer.value).value <= 7
    ensures applied.Some? ==> applied == answer
  {
    match answer
    case None => None
    case Some(size) =>
      var n := ParseInt(size);
      if size != "" && n.Some? && 1 <= n.value && n.value <= 7 then Some(size) else None
  }

  /** A plain decimal size is applied exactly when it lies in 1..7. */
  lemma FontSizeOfNumeral(n: nat)
    ensures FontSizeCommand(Some(DecimalString(n))).Some? <==> 1 <= n <= 7
  {
    ParseDecimalString(n);
  }

  /** The image picker's filter `/\.(jpg|jpeg|png|gif|webp)$/i`. */
  const PickerExtensions := [".jpg", ".jpeg", ".png", ".gif", ".webp"]

  predicate IsPickerImage(name: string) {
    Gallery.HasExtension(name, PickerExtensions)
  }

  /** Every name the picker offers is also one the gallery page lists, but an `.svg` file,
      which the gallery page lists, is never offered. */
  lemma PickerWithinGallery(name: string)
    ensures IsPickerImage(name) ==> Gallery.IsGalleryImage(name)
    ensures EndsWithIgnoringCase(name, ".svg") ==> Gallery.IsGalleryImage(name) && !IsPickerImage(name)
  {
    if IsPickerImage(name) {
      var k :| 0 <= k < |PickerExtensions| && EndsWithIgnoringCase(name, PickerExtensions[k]);
      assert Gallery.GalleryExtensions[k] == PickerExtensions[k];
    }
    if EndsWithIgnoringCase(name, ".svg") {
      assert Gallery.GalleryExtensions[5] == ".svg";
      var n := |name|;
      assert AsciiFold(name[n - 2]) == 'v' by {
        assert AsciiFold(name[n - 4 + 2]) == AsciiFold(".svg"[2]);
      }
      assert AsciiFold(name[n - 1]) == 'g' by {
        assert AsciiFold(name[n - 4 + 3]) == AsciiFold(".svg"[3]);
      }
      forall k | 0 <= k < |PickerExtensions| ensures !EndsWithIgnoringCase(name, PickerExtensions[k]) {
        var e := PickerExtensions[k];
        var m := |e|;
        assert AsciiFold(e[m - 2]) != 'v' || AsciiFold(e[m - 1]) != 'g';
        if m <= n {
          assert name[n - m + (m - 2)] == name[n - 2] && name[n - m + (m - 1)] == name[n - 1];
        }
      }
    }
  }

  /** The record `savePost` inserts into `blog_posts`. */
  datatype PostRecord = PostRecord(
    title: string,
    slug: string,
    content: string,
    excerpt: string,
    tags: seq<string>,
    published: bool,
    authorId: string,
    createdAt: string,
    updatedAt: string)

  /** What the preview pane shows. */
  datatype Preview = Preview(title: string, content: string, excerpt: string, tags: seq<string>, createdAt: string)

  /** The editor's text state: the title, the unused `content` state, the excerpt, the
      comma-separated tags and the published switch. */
  datatype Draft = Draft(title: string, content: string, excerpt: string, tags: string, isPublished: bool)

  const EmptyDraft := Draft("", "", "", "", false)

  /** The placeholder author id the editor writes. */
  const PlaceholderAuthor := "current-user-id"

  /** The checks `savePost` makes before anything else: a title and editor content that are
      not blank. */
  predicate CanSave(d: Draft, html: string) {
    Trim(d.title) != "" && Trim(html) != ""
  }

  /** The page's draft, the editable area's `innerHTML` and the saving flag. */
  datatype EditorState = EditorState(draft: Draft, html: string, isSaving: bool)

  /** `getPreviewContent()` at time `now`. Like `savePost`, it reads the content from the
      editable area and applies the excerpt fallback and the tag parsing. */
  function PreviewContent(s: EditorState, now: string): (p: Preview)
    ensures p.title == s.draft.title && p.content == s.html && p.createdAt == now
    ensures p.excerpt == Excerpt(s.draft.excerpt, s.draft.title) && p.tags == ParseTags(s.draft.tags)
  {
    Preview(s.draft.title, s.html, Excerpt(s.draft.excerpt, s.draft.title), ParseTags(s.draft.tags), now)
  }

  class EditorPage {
    const tables: Tables
    var state: EditorState
    var galleryImages: seq<Gallery.GalleryImage>

    constructor (t: Tables)
      ensures tables == t && state == EditorState(EmptyDraft, "", false) && galleryImages == []
    {
      tables := t;
      state := EditorState(EmptyDraft, "", false);
      galleryImages := [];
    }

    /** `loadGalleryImages()` given the storage listing (or `Threw`) and the public URL of
        each name: the image files the picker accepts replace the list; a failure keeps it. */
    method LoadGallery(listing: Outcome<seq<Gallery.StorageFile>>, publicUrl: string -> string, now: string)
      modifies this
      ensures galleryImages == if listing.Returned?
                               then Gallery.ListedImages(listing.value, publicUrl, now, IsPickerImage)
                               else old(galleryImages)
      ensures state == old(state)
    {
      galleryImages := if listing.Returned?
                       then Gallery.ListedImages(listing.value, publicUrl, now, IsPickerImage)
                       else galleryImages;
    }

    /** `savePost()` at time `now`, given whether the insert succeeded. A blank title or
        blank content stops it before anything is sent or changed. Otherwise the record is
        sent, with the slug of the title and the content, excerpt and tags the preview
        shows; a successful insert clears the draft and the editor, a failed one keeps
        them, and saving ends either way. */
    method SavePost(inserted: bool, now: string) returns (sent: Option<PostRecord>)
      modifies this
      ensures var s := old(state);
        var p := PreviewContent(s, now);
        if !CanSave(s.draft, s.html) then sent.None? && state == s
        else
          sent == Some(PostRecord(s.draft.title, BlogStore.GenerateSlug(tables, s.draft.title),
                                  p.content, p.excerpt, p.tags, s.draft.isPublished, PlaceholderAuthor, now, now))
          && state == (if inserted then EditorState(EmptyDraft, "", false) else s.(isSaving := false))
      ensures galleryImages == old(galleryImages)
    {
      var s := state;
      var ok := CanSave(s.draft, s.html);
      var p := PreviewContent(s, now);
      sent := if ok then Some(PostRecord(s.draft.title, BlogStore.GenerateSlug(tables, s.draft.title), p.content,
                                         p.excerpt, p.tags, s.draft.isPublished, PlaceholderAuthor, now, now))
              else None;
      state := if !ok then s else if inserted then EditorState(EmptyDraft, "", false) else s.(isSaving := false);
    }
  }
}
