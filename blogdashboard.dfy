/** The dashboard's blog page: the post list and the list the table is drawn from, the list
    updates after each server call, the published and featured toggles, and the status
    badge. */
module BlogDashboard {
  import opened Wrappers
  import opened JsText
  import Seqs
  import BlogStore
  import ServerSearch

  function PostId(p: BlogStore.Post): string {
    p.id
  }

  /** The columns an update of the toggles may carry; `None` leaves a column alone. */
  datatype Patch = Patch(published: Option<bool>, featured: Option<bool>)

  /** A row after the database applies `patch` to it: only the two flags can change. */
  function ApplyPatch(p: BlogStore.Post, patch: Patch): (r: BlogStore.Post)
    ensures r.(published := p.published, featured := p.featured) == p
    ensures r.published == (if patch.published.Some? then patch.published.value else p.published)
    ensures r.featured == (if patch.featured.Some? then patch.featured.value else p.featured)
  {
    p.(published := patch.published.GetOr(p.published), featured := patch.featured.GetOr(p.featured))
  }

  /** `{ published: !post.published }`. */
  function TogglePublishedPatch(p: BlogStore.Post): (patch: Patch)
    ensures patch.featured.None? && patch.published == Some(!p.published)
  {
    Patch(Some(!p.published), None)
  }

  /** `{ featured: !post.featured }`. */
  function ToggleFeaturedPatch(p: BlogStore.Post): (patch: Patch)
    ensures patch.published.None? && patch.featured == Some(!p.featured)
  {
    Patch(None, Some(!p.featured))
  }

  /** A toggle flips its own flag and nothing else, and toggling twice gives the row back. */
  lemma TogglesFlipOneFlag(p: BlogStore.Post)
    ensures ApplyPatch(p, TogglePublishedPatch(p)) == p.(published := !p.published)
    ensures ApplyPatch(p, ToggleFeaturedPatch(p)) == p.(featured := !p.featured)
    ensures var q := ApplyPatch(p, TogglePublishedPatch(p)); ApplyPatch(q, TogglePublishedPatch(q)) == p
    ensures var q := ApplyPatch(p, ToggleFeaturedPatch(p)); ApplyPatch(q, ToggleFeaturedPatch(q)) == p
  {
  }

  /** The status badge of a row: its text and its classes. */
  datatype Badge = Badge(text: string, classes: string)

  /** `getStatusColor(post.published)` with the badge text beside it. */
  function StatusBadge(published: bool): (b: Badge)
    ensures published ==> b.text == "Publicado" && b.classes == "bg-green-100 text-green-800"
    ensures !published ==> b.text == "Rascunho" && b.classes == "bg-yellow-100 text-yellow-800"
  {
    if published then Badge("Publicado", "bg-green-100 text-green-800")
    else Badge("Rascunho", "bg-yellow-100 text-yellow-800")
  }

  /** The badge tells published rows from drafts by both its text and its colour. */
  lemma BadgeShowsStatus(a: bool, b: bool)
    ensures StatusBadge(a).text == StatusBadge(b).text <==> a == b
    ensures StatusBadge(a).classes == StatusBadge(b).classes <==> a == b
  {
  }

  /** The page's state besides the table's list. */
  datatype BlogView = BlogView(
    posts: seq<BlogStore.Post>,
    searchTerm: string,
    selected: Option<BlogStore.Post>,
    loading: bool)

  /** The search input here is the result of `searchBlogPosts(term)`, which answers `[]`
      instead of failing, so the effect always stores it. */
  class BlogDashboardPage {
    var view: BlogView
    var filteredPosts: seq<BlogStore.Post>

    /** Under a blank search the table shows the whole post list. */
    predicate Valid()
      reads this
    {
      IsBlank(view.searchTerm) ==> filteredPosts == view.posts
    }

    constructor ()
      ensures view == BlogView([], "", None, true) && filteredPosts == []
      ensures Valid()
    {
      view := BlogView([], "", None, true);
      filteredPosts := [];
    }

    /** Stores a new state; when `refresh` holds, the list or the term changed and the
        search effect runs. */
    method Show(v: BlogView, refresh: bool, search: seq<BlogStore.Post>, previous: seq<BlogStore.Post>)
      requires !refresh ==> (IsBlank(v.searchTerm) ==> previous == v.posts)
      modifies this
      ensures view == v && Valid()
      ensures filteredPosts == if refresh then ServerSearch.Refreshed(v.posts, v.searchTerm, Returned(search), previous) else previous
    {
      view := v;
      filteredPosts := if refresh then ServerSearch.Refreshed(v.posts, v.searchTerm, Returned(search), previous) else previous;
    }

    /** `loadPosts()` given the listing (or `Threw`): a listing becomes both lists and the
        effect then runs; a failure changes no list; loading ends. */
    method LoadPosts(listing: Outcome<seq<BlogStore.Post>>, search: seq<BlogStore.Post>)
      requires Valid()
      modifies this
      ensures Valid()
      ensures view == old(view).(posts := if listing.Returned? then listing.value else old(view.posts), loading := false)
      ensures listing.Returned? ==>
        filteredPosts == ServerSearch.Refreshed(listing.value, old(view.searchTerm), Returned(search), listing.value)
      ensures listing.Threw? ==> filteredPosts == old(filteredPosts)
    {
      var v := view;
      Show(v.(posts := if listing.Returned? then listing.value else v.posts, loading := false),
           listing.Returned?, search, if listing.Returned? then listing.value else filteredPosts);
    }

    /** Typing into the search box; the effect runs when the term changes. */
    method SetSearchTerm(term: string, search: seq<BlogStore.Post>)
      requires Valid()
      modifies this
      ensures Valid() && view == old(view).(searchTerm := term)
      ensures filteredPosts == if term != old(view.searchTerm)
                               then ServerSearch.Refreshed(old(view.posts), term, Returned(search), old(filteredPosts))
                               else old(filteredPosts)
    {
      var v := view;
      Show(v.(searchTerm := term), term != v.searchTerm, search, filteredPosts);
    }

    /** Opening a post's preview or edit dialog. */
    method Select(p: BlogStore.Post)
      requires Valid()
      modifies this
      ensures Valid() && view == old(view).(selected := Some(p)) && filteredPosts == old(filteredPosts)
    {
      Show(view.(selected := Some(p)), false, [], filteredPosts);
    }

    /** `handleAddPost` given the created row (or `Threw`): it goes first. */
    method AddPost(created: Outcome<BlogStore.Post>, search: seq<BlogStore.Post>)
      requires Valid()
      modifies this
      ensures Valid()
      ensures created.Returned? ==>
        view == old(view).(posts := [created.value] + old(view.posts))
        && filteredPosts == ServerSearch.Refreshed([created.value] + old(view.posts), old(view.searchTerm), Returned(search), old(filteredPosts))
      ensures created.Threw? ==> view == old(view) && filteredPosts == old(filteredPosts)
    {
      var v := view;
      Show(v.(posts := if created.Returned? then [created.value] + v.posts else v.posts),
           created.Returned?, search, filteredPosts);
    }

    /** `handleEditPost` given the updated row (or `Threw`): without a selection nothing
        happens; otherwise the rows with the selected id become the updated row and the
        selection is cleared. */
    method EditPost(updated: Outcome<BlogStore.Post>, search: seq<BlogStore.Post>)
      requires Valid()
      modifies this
      ensures Valid()
      ensures old(view.selected).Some? && updated.Returned? ==>
        var edited := Seqs.ReplaceByKey(old(view.posts), PostId, old(view.selected).value.id, updated.value);
        view == old(view).(posts := edited, selected := None)
        && filteredPosts == ServerSearch.Refreshed(edited, old(view.searchTerm), Returned(search), old(filteredPosts))
      ensures old(view.selected).None? || updated.Threw? ==> view == old(view) && filteredPosts == old(filteredPosts)
    {
      var v := view;
      var applies := v.selected.Some? && updated.Returned?;
      Show(if applies then v.(posts := Seqs.ReplaceByKey(v.posts, PostId, v.selected.value.id, updated.value), selected := None) else v,
           applies, search, filteredPosts);
    }

    /** `handleDeletePost(id)` given whether the server deleted it. */
    method DeletePost(id: string, deleted: bool, search: seq<BlogStore.Post>)
      requires Valid()
      modifies this
      ensures Valid()
      ensures deleted ==>
        view == old(view).(posts := Seqs.RemoveByKey(old(view.posts), PostId, id))
        && filteredPosts == ServerSearch.Refreshed(Seqs.RemoveByKey(old(view.posts), PostId, id), old(view.searchTerm), Returned(search), old(filteredPosts))
      ensures !deleted ==> view == old(view) && filteredPosts == old(filteredPosts)
    {
      var v := view;
      Show(v.(posts := if deleted then Seqs.RemoveByKey(v.posts, PostId, id) else v.posts), deleted, search, filteredPosts);
    }

    /** A toggle of `post` given the row the server returned (or `Threw`): the patch is
        sent for the post's id, and the returned row replaces the rows with that id. */
    method Toggle(post: BlogStore.Post, patch: Patch, updated: Outcome<BlogStore.Post>, search: seq<BlogStore.Post>)
      requires Valid()
      modifies this
      ensures Valid()
      ensures updated.Returned? ==>
        var replaced := Seqs.ReplaceByKey(old(view.posts), PostId, post.id, updated.value);
        view == old(view).(posts := replaced)
        && filteredPosts == ServerSearch.Refreshed(replaced, old(view.searchTerm), Returned(search), old(filteredPosts))
      ensures updated.Threw? ==> view == old(view) && filteredPosts == old(filteredPosts)
    {
      var v := view;
      Show(v.(posts := if updated.Returned? then Seqs.ReplaceByKey(v.posts, PostId, post.id, updated.value) else v.posts),
           updated.Returned?, search, filteredPosts);
    }

    /** `handleTogglePublished(post)`: sends only the flipped `published` flag. */
    method TogglePublished(post: BlogStore.Post, updated: Outcome<BlogStore.Post>, search: seq<BlogStore.Post>)
      returns (id: string, patch: Patch)
      requires Valid()
      modifies this
      ensures id == post.id && patch == TogglePublishedPatch(post)
      ensures Valid()
      ensures updated.Returned? ==>
        var replaced := Seqs.ReplaceByKey(old(view.posts), PostId, post.id, updated.value);
        view == old(view).(posts := replaced)
        && filteredPosts == ServerSearch.Refreshed(replaced, old(view.searchTerm), Returned(search), old(filteredPosts))
      ensures updated.Threw? ==> view == old(view) && filteredPosts == old(filteredPosts)
    {
      id := post.id;
      patch := TogglePublishedPatch(post);
      Toggle(post, patch, updated, search);
    }

    /** `handleToggleFeatured(post)`: sends only the flipped `featured` flag. */
    method ToggleFeatured(post: BlogStore.Post, updated: Outcome<BlogStore.Post>, search: seq<BlogStore.Post>)
      returns (id: string, patch: Patch)
      requires Valid()
      modifies this
      ensures id == post.id && patch == ToggleFeaturedPatch(post)
      ensures Valid()
      ensures updated.Returned? ==>
        var replaced := Seqs.ReplaceByKey(old(view.posts), PostId, post.id, updated.value);
        view == old(view).(posts := replaced)
        && filteredPosts == ServerSearch.Refreshed(replaced, old(view.searchTerm), Returned(search), old(filteredPosts))
      ensures updated.Threw? ==> view == old(view) && filteredPosts == old(filteredPosts)
    {
      id := post.id;
      patch := ToggleFeaturedPatch(post);
      Toggle(post, patch, updated, search);
    }
  }

  /** After a toggle the server returns the patched row, which then stands in the list with
      the flag flipped; every other row is as it was. */
  lemma ToggledRowInList(posts: seq<BlogStore.Post>, post: BlogStore.Post, i: int)
    requires 0 <= i < |posts|
    ensures var r := Seqs.ReplaceByKey(posts, PostId, post.id, ApplyPatch(post, TogglePublishedPatch(post)));
      |r| == |posts| && (posts[i].id == post.id ==> r[i] == post.(published := !post.published))
      && (posts[i].id != post.id ==> r[i] == posts[i])
  {
    TogglesFlipOneFlag(post);
  }
}
