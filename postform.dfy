/** The form that creates or edits a blog post: its field state, the slug that follows the
    title while a new post is written, the tag list, and the record it submits. */
module PostForm {
  import opened Wrappers
  import opened JsText
  import Seqs
  import BlogStore

  /** The text inputs of the form, by their `name` attribute. */
  datatype TextField = Title | Slug | Excerpt | Content | Image | Author | Category

  /** The two switches. */
  datatype SwitchField = Published | Featured

  /** The form's `formData` state. */
  datatype FormData = FormData(
    title: string,
    slug: string,
    excerpt: string,
    content: string,
    image: string,
    author: string,
    category: string,
    tags: seq<string>,
    published: bool,
    featured: bool)
  {
    /** The value of a text input. */
    function Text(field: TextField): string {
      match field
      case Title => title
      case Slug => slug
      case Excerpt => excerpt
      case Content => content
      case Image => image
      case Author => author
      case Category => category
    }
  }

  /** `{ ...prev, [name]: value }` for a text input. */
  function SetText(d: FormData, field: TextField, value: string): (r: FormData)
    ensures r.Text(field) == value
    ensures forall other: TextField :: other != field ==> r.Text(other) == d.Text(other)
    ensures r.tags == d.tags && r.published == d.published && r.featured == d.featured
  {
    match field
    case Title => d.(title := value)
    case Slug => d.(slug := value)
    case Excerpt => d.(excerpt := value)
    case Content => d.(content := value)
    case Image => d.(image := value)
    case Author => d.(author := value)
    case Category => d.(category := value)
  }

  /** What the form hands to its `onSubmit` callback: its data with `read_time` and `published_at`. */
  datatype Submission = Submission(data: FormData, readTime: int, publishedAt: Option<string>)

  const DefaultAuthor := "Equipe ON4"

  /** The initial `formData`: empty with the default author for a new post; the post's own
      fields for an existing one, with falsy values replaced by the defaults. */
  function InitialData(post: Option<BlogStore.Post>): (d: FormData)
    ensures post.None? ==> d.Text(Author) == DefaultAuthor && d.tags == [] && !d.published && !d.featured
                           && forall f: TextField :: f != Author ==> d.Text(f) == ""
    ensures post.Some? ==> d.title == post.value.title && d.slug == post.value.slug
                           && d.excerpt == post.value.excerpt && d.content == post.value.content
                           && d.category == post.value.category && d.tags == post.value.tags
                           && d.published == post.value.published && d.featured == post.value.featured
    ensures post.Some? && post.value.author != "" ==> d.author == post.value.author
    ensures post.Some? && post.value.author == "" ==> d.author == DefaultAuthor
    ensures post.Some? && post.value.image.Some? ==> d.image == post.value.image.value
    ensures post.Some? && post.value.image.None? ==> d.image == ""
  {
    match post
    case None => FormData("", "", "", "", "", DefaultAuthor, "", [], false, false)
    case Some(p) =>
      FormData(p.title, p.slug, p.excerpt, p.content, OptOrElse(p.image, ""),
               OrElse(p.author, DefaultAuthor), p.category, p.tags, p.published, p.featured)
  }

  /** The slug effect runs when the title differs from the previous one, and then only
      regenerates for a new post with a non-empty title. */
  predicate SlugFollowsTitle(editing: Option<BlogStore.Post>, before: string, after: string) {
    before != after && editing.None? && after != ""
  }

  /** `addTag()` on the data: the trimmed tag is appended when it is non-blank and new. */
  predicate AcceptsTag(d: FormData, newTag: string) {
    Trim(newTag) != "" && Trim(newTag) !in d.tags
  }

  class Form {
    /** The post being edited, or `None` when a new one is written. */
    const editing: Option<BlogStore.Post>
    const tables: Tables

    var formData: FormData
    var newTag: string

    constructor (post: Option<BlogStore.Post>, t: Tables)
      ensures editing == post && tables == t
      ensures formData == InitialData(post) && newTag == ""
    {
      editing := post;
      tables := t;
      formData := InitialData(post);
      newTag := "";
    }

    /** `handleChange` for the input `field`, followed by the slug effect: when the title of a
        new post changes to a non-empty value the slug is regenerated from it. */
    method Change(field: TextField, value: string)
      modifies this
      ensures field == Title && SlugFollowsTitle(editing, old(formData.title), value) ==>
        formData == SetText(old(formData), field, value).(slug := BlogStore.GenerateSlug(tables, value))
      ensures !(field == Title && SlugFollowsTitle(editing, old(formData.title), value)) ==>
        formData == SetText(old(formData), field, value)
      ensures newTag == old(newTag)
    {
      var d := SetText(formData, field, value);
      if field == Title && SlugFollowsTitle(editing, formData.title, value) {
        var slug := BlogStore.GenerateSlug(tables, value);
        formData := d.(slug := slug);
      } else {
        formData := d;
      }
    }

    /** `handleSwitchChange`. */
    method Switch(field: SwitchField, checked: bool)
      modifies this
      ensures field == Published ==> formData == old(formData).(published := checked)
      ensures field == Featured ==> formData == old(formData).(featured := checked)
      ensures newTag == old(newTag)
    {
      match field {
        case Published => formData := formData.(published := checked);
        case Featured => formData := formData.(featured := checked);
      }
    }

    /** Typing into the new-tag input. */
    method SetNewTag(value: string)
      modifies this
      ensures newTag == value && formData == old(formData)
    {
      newTag := value;
    }

    /** `addTag()`: the trimmed new tag is appended unless it is blank or already present;
        only an accepted tag clears the input. */
    method AddTag()
      modifies this
      ensures AcceptsTag(old(formData), old(newTag)) ==>
        formData == old(formData).(tags := old(formData.tags) + [Trim(old(newTag))]) && newTag == ""
      ensures !AcceptsTag(old(formData), old(newTag)) ==> formData == old(formData) && newTag == old(newTag)
      ensures Seqs.NoDuplicates(old(formData.tags)) ==> Seqs.NoDuplicates(formData.tags)
    {
      var t := Trim(newTag);
      var d := formData;
      if t != "" && t !in d.tags {
        if Seqs.NoDuplicates(d.tags) {
          Seqs.AppendFresh(d.tags, t);
        }
        formData := d.(tags := d.tags + [t]);
        newTag := "";
      }
    }

    /** `handleKeyPress`: Enter adds the tag; any other key does nothing. */
    method KeyPress(key: string)
      modifies this
      ensures key != "Enter" ==> formData == old(formData) && newTag == old(newTag)
      ensures key == "Enter" && AcceptsTag(old(formData), old(newTag)) ==>
        formData == old(formData).(tags := old(formData.tags) + [Trim(old(newTag))]) && newTag == ""
      ensures key == "Enter" && !AcceptsTag(old(formData), old(newTag)) ==>
        formData == old(formData) && newTag == old(newTag)
    {
      if key == "Enter" {
        AddTag();
      }
    }

    /** `removeTag(tag)`: every copy of `tag` leaves the list; the others keep their order. */
    method RemoveTag(tag: string)
      modifies this
      ensures formData == old(formData).(tags := WithoutTag(old(formData.tags), tag))
      ensures newTag == old(newTag)
    {
      formData := formData.(tags := WithoutTag(formData.tags, tag));
    }

    /** `handleSubmit`, given the current time as an ISO string: the form's data, the
        estimated read time of the content, and the publication time, which is stamped now
        when the post becomes published for the first time and otherwise carried over. */
    method Submit(now: string) returns (s: Submission)
      ensures s.data == formData
      ensures s.readTime == BlogStore.ReadTime(formData.content) && s.readTime >= 1
      ensures formData.published && !(editing.Some? && editing.value.published) ==> s.publishedAt == Some(now)
      ensures editing.None? && !formData.published ==> s.publishedAt.None?
      ensures editing.Some? && (editing.value.published || !formData.published) ==>
        s.publishedAt == editing.value.publishedAt
    {
      var stamp: Option<string>;
      if formData.published && !(editing.Some? && editing.value.published) {
        stamp := Some(now);
      } else if editing.Some? {
        stamp := editing.value.publishedAt;
      } else {
        stamp := None;
      }
      s := Submission(formData, BlogStore.ReadTime(formData.content), stamp);
    }
  }

  /** `tags.filter(tag => tag !== removed)`. */
  function WithoutTag(tags: seq<string>, removed: string): (r: seq<string>)
    ensures removed !in r
    ensures forall i :: 0 <= i < |tags| && tags[i] != removed ==> tags[i] in r
    ensures Seqs.IsSubsequence(r, tags)
  {
    Seqs.FilterIsSubsequence(tags, (tag: string) => tag != removed);
    Seqs.Filter(tags, (tag: string) => tag != removed)
  }

  /** Removing a tag just added restores the list it was added to. */
  lemma {:induction false} RemoveUndoesAdd(tags: seq<string>, t: string)
    requires t !in tags
    ensures WithoutTag(tags + [t], t) == tags
  {
    Seqs.FilterAppend(tags, [t], (tag: string) => tag != t);
    Seqs.FilterKeepsAll(tags, (tag: string) => tag != t);
    assert Seqs.Filter([t], (tag: string) => tag != t) == [];
  }

  /** Removing keeps a duplicate-free list duplicate-free. */
  lemma {:induction false} RemoveKeepsNoDuplicates(tags: seq<string>, removed: string)
    requires Seqs.NoDuplicates(tags)
    ensures Seqs.NoDuplicates(WithoutTag(tags, removed))
  {
    Seqs.FilterIsSubsequence(tags, (tag: string) => tag != removed);
    SubsequenceNoDuplicates(WithoutTag(tags, removed), tags);
  }

  lemma {:induction false} SubsequenceNoDuplicates(xs: seq<string>, ys: seq<string>)
    requires Seqs.IsSubsequence(xs, ys) && Seqs.NoDuplicates(ys)
    ensures Seqs.NoDuplicates(xs)
    decreases |ys|
  {
    if xs != [] && ys != [] {
      if xs[0] == ys[0] && Seqs.IsSubsequence(xs[1..], ys[1..]) {
        assert Seqs.NoDuplicates(ys[1..]);
        SubsequenceNoDuplicates(xs[1..], ys[1..]);
        Seqs.SubsequenceMembers(xs[1..], ys[1..]);
        assert xs[0] !in ys[1..];
      } else {
        assert Seqs.NoDuplicates(ys[1..]);
        SubsequenceNoDuplicates(xs, ys[1..]);
      }
    }
  }
}
