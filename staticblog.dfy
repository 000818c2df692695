/** The built-in article catalogue of the public blog: a module-level array of articles,
    sorted in place by publication date on every listing, looked up by slug, and mined for
    related articles and for its categories. */
module StaticBlog {
  import opened Wrappers
  import Seqs

  /** An article. `publishedAt` is the time value of its publication date (the source keeps
      the date as an ISO string and compares `new Date(...).getTime()`). */
  datatype Article = Article(
    id: string,
    title: string,
    slug: string,
    excerpt: string,
    content: string,
    image: string,
    author: string,
    publishedAt: int,
    category: string,
    tags: seq<string>,
    readTime: int)

  predicate NewestFirst(s: seq<Article>) {
    forall i, j :: 0 <= i < j < |s| ==> s[i].publishedAt >= s[j].publishedAt
  }

  predicate UniqueSlugs(s: seq<Article>) {
    forall i, j :: 0 <= i < |s| && 0 <= j < |s| && s[i].slug == s[j].slug ==> i == j
  }

  /** The catalogue: one array shared by every caller. */
  class Catalogue {
    const posts: array<Article>

    constructor (initial: seq<Article>)
      ensures posts[..] == initial
      ensures fresh(posts)
    {
      posts := new Article[|initial|](i requires 0 <= i < |initial| => initial[i]);
    }

    /** `getBlogPosts()`: sorts the shared array newest first, in place, and returns that same array. */
    method GetBlogPosts() returns (sorted: array<Article>)
      modifies posts
      ensures sorted == posts
      ensures NewestFirst(posts[..])
      ensures multiset(posts[..]) == multiset(old(posts[..]))
    {
      SortNewestFirst(posts);
      sorted := posts;
    }
  }

  /** Sorts `a` newest first by inserting each element into the sorted prefix before it. */
  method SortNewestFirst(a: array<Article>)
    modifies a
    ensures NewestFirst(a[..])
    ensures multiset(a[..]) == multiset(old(a[..]))
  {
    var i := 0;
    while i < a.Length
      invariant 0 <= i <= a.Length
      invariant NewestFirst(a[..i])
      invariant multiset(a[..]) == multiset(old(a[..]))
    {
      InsertBackward(a, i);
      i := i + 1;
    }
    assert a[..a.Length] == a[..];
  }

  /** Moves `a[i]` back past the older articles before it, so that `a[..i + 1]` is newest first. */
  method InsertBackward(a: array<Article>, i: nat)
    requires i < a.Length && NewestFirst(a[..i])
    modifies a
    ensures NewestFirst(a[..i + 1])
    ensures multiset(a[..]) == multiset(old(a[..]))
  {
    var j := i;
    InsertingStart(a[..], i);
    while j > 0 && a[j - 1].publishedAt < a[j].publishedAt
      invariant Inserting(a[..], i, j)
      invariant multiset(a[..]) == multiset(old(a[..]))
    {
      InsertingStep(a[..], i, j);
      a[j - 1], a[j] := a[j], a[j - 1];
      j := j - 1;
    }
    InsertingDone(a[..], i, j);
  }

  /** The state of one insertion: `s[..i + 1]` is newest first apart from the moving element
      at `j`, which is newer than everything after it. */
  predicate Inserting(s: seq<Article>, i: int, j: int) {
    0 <= j <= i < |s|
    && (forall k, l :: 0 <= k < l <= i && k != j && l != j ==> s[k].publishedAt >= s[l].publishedAt)
    && (forall k, l :: 0 <= k < j < l <= i ==> s[k].publishedAt >= s[l].publishedAt)
    && (forall l :: j < l <= i ==> s[j].publishedAt > s[l].publishedAt)
  }

  lemma InsertingStart(s: seq<Article>, i: nat)
    requires i < |s| && NewestFirst(s[..i])
    ensures Inserting(s, i, i)
  {
    assert forall k :: 0 <= k < i ==> s[..i][k] == s[k];
  }

  lemma InsertingStep(s: seq<Article>, i: int, j: int)
    requires Inserting(s, i, j) && j > 0 && s[j - 1].publishedAt < s[j].publishedAt
    ensures Inserting(s[j - 1 := s[j]][j := s[j - 1]], i, j - 1)
  {
  }

  lemma InsertingDone(s: seq<Article>, i: int, j: int)
    requires Inserting(s, i, j) && (j == 0 || s[j - 1].publishedAt >= s[j].publishedAt)
    ensures NewestFirst(s[..i + 1])
  {
    forall k, l | 0 <= k < l < i + 1 ensures s[k].publishedAt >= s[l].publishedAt {
      if k < j && l == j && k < j - 1 {
        assert s[k].publishedAt >= s[j - 1].publishedAt;
      }
    }
  }

  /** `posts.find(post => post.slug === slug)`: the first article with that slug. */
  function FindBySlug(posts: seq<Article>, slug: string): (r: Option<Article>)
    ensures r.None? <==> forall i :: 0 <= i < |posts| ==> posts[i].slug != slug
    ensures r.Some? ==> exists i :: 0 <= i < |posts| && posts[i] == r.value && r.value.slug == slug
                          && forall k :: 0 <= k < i ==> posts[k].slug != slug
  {
    if posts == [] then None
    else if posts[0].slug == slug then Some(posts[0])
    else
      var r := FindBySlug(posts[1..], slug);
      assert r.Some? ==> exists i :: 1 <= i < |posts| && posts[i] == r.value && r.value.slug == slug
                          && forall k :: 0 <= k < i ==> posts[k].slug != slug by {
        if r.Some? {
          var i :| 0 <= i < |posts[1..]| && posts[1..][i] == r.value && r.value.slug == slug
                   && forall k :: 0 <= k < i ==> posts[1..][k].slug != slug;
          assert posts[i + 1] == r.value;
          assert forall k :: 0 <= k < i + 1 ==> posts[k].slug != slug by {
            forall k | 0 <= k < i + 1 ensures posts[k].slug != slug {
              if k > 0 {
                assert posts[k] == posts[1..][k - 1];
              }
            }
          }
        }
      }
      r
  }

  /** With unique slugs, reordering the catalogue does not change what a slug finds, so a
      lookup gives the same article before and after a listing has sorted the array. */
  lemma FindAfterReordering(before: seq<Article>, after: seq<Article>, slug: string)
    requires multiset(before) == multiset(after)
    requires UniqueSlugs(before) && UniqueSlugs(after)
    ensures FindBySlug(before, slug) == FindBySlug(after, slug)
  {
    var rb := FindBySlug(before, slug);
    var ra := FindBySlug(after, slug);
    forall i | 0 <= i < |before| ensures before[i] in after {
      assert before[i] in multiset(before);
    }
    forall i | 0 <= i < |after| ensures after[i] in before {
      assert after[i] in multiset(after);
    }
    if rb.Some? {
      var i :| 0 <= i < |before| && before[i] == rb.value && rb.value.slug == slug;
      var j :| 0 <= j < |after| && after[j] == before[i];
      assert ra.Some?;
      var m :| 0 <= m < |after| && after[m] == ra.value && ra.value.slug == slug;
      assert m == j;
    }
  }

  /** `post.tags.some(tag => current.tags.includes(tag))`. */
  predicate SharesTag(post: Article, current: Article) {
    exists k :: 0 <= k < |post.tags| && post.tags[k] in current.tags
  }

  /** An article related to `current`: another slug, and the same category or a common tag. */
  predicate IsRelated(post: Article, current: Article) {
    post.slug != current.slug && (post.category == current.category || SharesTag(post, current))
  }

  function RelatedTo(current: Article): Article -> bool {
    (p: Article) => IsRelated(p, current)
  }

  /** `getRelatedPosts(currentSlug, limit)`: no result for an unknown slug; otherwise the
      related articles in catalogue order, cut by `slice(0, limit)` (a negative limit drops
      that many from the end). */
  function GetRelatedPosts(posts: seq<Article>, currentSlug: string, limit: int := 3): (r: seq<Article>)
    ensures FindBySlug(posts, currentSlug).None? ==> r == []
    ensures FindBySlug(posts, currentSlug).Some? ==>
      forall i :: 0 <= i < |r| ==> r[i] in posts && IsRelated(r[i], FindBySlug(posts, currentSlug).value)
    ensures Seqs.IsSubsequence(r, posts)
    ensures limit >= 0 ==> |r| <= limit
    ensures FindBySlug(posts, currentSlug).Some? && limit >= |posts| ==>
      forall i :: 0 <= i < |posts| && IsRelated(posts[i], FindBySlug(posts, currentSlug).value) ==> posts[i] in r
  {
    match FindBySlug(posts, currentSlug)
    case None =>
      Seqs.FilterIsSubsequence(posts, (p: Article) => false);
      assert Seqs.Filter(posts, (p: Article) => false) == [];
      []
    case Some(current) =>
      var candidates := Seqs.Filter(posts, RelatedTo(current));
      var r := Seqs.Slice0(candidates, limit);
      Seqs.PrefixIsSubsequence(candidates, |r|);
      Seqs.FilterIsSubsequence(posts, RelatedTo(current));
      Seqs.SubsequenceTransitive(r, candidates, posts);
      r
  }

  /** The related articles are those of the full list of related articles that fit in the limit,
      in the same order: asking for more never reorders or replaces the first ones. */
  lemma RelatedPostsGrowWithLimit(posts: seq<Article>, currentSlug: string, small: nat, large: nat)
    requires small <= large
    ensures GetRelatedPosts(posts, currentSlug, small) == GetRelatedPosts(posts, currentSlug, large)[..|GetRelatedPosts(posts, currentSlug, small)|]
  {
  }

  /** A limit cuts the full list of related articles and takes as many as it allows: with
      `RelatedPostsGrowWithLimit` the result is the first `limit` related articles. */
  lemma RelatedPostsFillLimit(posts: seq<Article>, currentSlug: string, limit: int)
    requires limit >= 0 && FindBySlug(posts, currentSlug).Some?
    ensures var all := GetRelatedPosts(posts, currentSlug, |posts|);
      |GetRelatedPosts(posts, currentSlug, limit)| == if limit <= |all| then limit else |all|
  {
  }

  /** `[...new Set(posts.map(post => post.category))]`. */
  function GetBlogCategories(posts: seq<Article>): (categories: seq<string>)
    ensures Seqs.NoDuplicates(categories)
    ensures forall i :: 0 <= i < |categories| ==> exists k :: 0 <= k < |posts| && posts[k].category == categories[i]
    ensures forall k :: 0 <= k < |posts| ==> posts[k].category in categories
  {
    var all := seq(|posts|, k requires 0 <= k < |posts| => posts[k].category);
    assert forall k :: 0 <= k < |posts| ==> all[k] == posts[k].category;
    Seqs.Distinct(all)
  }

  /** Categories are listed in the order they first appear in the catalogue. */
  lemma CategoriesInFirstAppearanceOrder(posts: seq<Article>)
    ensures Seqs.InFirstOccurrenceOrder(seq(|posts|, k requires 0 <= k < |posts| => posts[k].category), GetBlogCategories(posts))
  {
    Seqs.DistinctKeepsFirstOccurrenceOrder(seq(|posts|, k requires 0 <= k < |posts| => posts[k].category));
  }

  // ---------------------------------------------------------------------------
  // The three built-in articles (their Markdown bodies are not reproduced)
  // ---------------------------------------------------------------------------

  const Influencers := Article("1", "Contabilidade para Influencers: Saiba mais!", "contabilidade-para-influencers",
    "É influenciador ou conhece algum? Fique por dentro de todos os detalhes para evitar surpresas fiscais.",
    "", "/images/influencer-accounting.png", "Equipe ON4", 20240115, "Tributação",
    ["influencers", "tributação", "mei", "pessoa jurídica"], 8)

  const Irpf := Article("2", "IRPF 2025: Tudo o que você precisa saber!", "irpf-2025-guia-completo",
    "Março chegou, saiba todos os detalhes para fazer a sua declaração de imposto de renda.",
    "", "/images/tax-lion-2025.png", "Equipe ON4", 20240110, "Imposto de Renda",
    ["irpf", "imposto de renda", "declaração", "2025"], 12)

  const Mei := Article("3", "MEI 2024: Guia Completo para Microempreendedores", "mei-2024-guia-completo",
    "Tudo sobre o MEI em 2024: como abrir, obrigações, benefícios e mudanças na legislação.",
    "", "/placeholder.svg?height=400&width=600", "Equipe ON4", 20240105, "MEI",
    ["mei", "microempreendedor", "formalização", "2024"], 10)

  const BuiltIn := [Influencers, Irpf, Mei]

  /** The MEI guide's only related article is the influencers article, through the tag `mei`. */
  lemma RelatedToMeiGuide()
    ensures GetRelatedPosts(BuiltIn, "mei-2024-guia-completo") == [Influencers]
  {
    MeiGuideFound();
    MeiGuideRelations();
    assert BuiltIn == [Influencers] + [Irpf] + [Mei];
    Seqs.FilterAppend([Influencers] + [Irpf], [Mei], RelatedTo(Mei));
    Seqs.FilterAppend([Influencers], [Irpf], RelatedTo(Mei));
    assert Seqs.Filter(BuiltIn, RelatedTo(Mei)) == [Influencers];
  }

  lemma MeiGuideFound()
    ensures FindBySlug(BuiltIn, "mei-2024-guia-completo") == Some(Mei)
  {
    assert BuiltIn[1..] == [Irpf, Mei];
    assert BuiltIn[1..][1..] == [Mei];
    assert Influencers.slug != Mei.slug && Irpf.slug != Mei.slug;
    assert FindBySlug([Mei], Mei.slug) == Some(Mei);
    assert FindBySlug([Irpf, Mei], Mei.slug) == Some(Mei);
  }

  lemma MeiGuideRelations()
    ensures IsRelated(Influencers, Mei) && !IsRelated(Irpf, Mei) && !IsRelated(Mei, Mei)
  {
    assert Influencers.tags[2] in Mei.tags;
    assert !IsRelated(Irpf, Mei);
  }

  lemma BuiltInCategories()
    ensures GetBlogCategories(BuiltIn) == ["Tributação", "Imposto de Renda", "MEI"]
  {
    var all := seq(|BuiltIn|, k requires 0 <= k < |BuiltIn| => BuiltIn[k].category);
    assert all == ["Tributação", "Imposto de Renda", "MEI"];
    Seqs.DistinctWithoutRepeats(all);
  }

  /** The built-in articles are already newest first and have distinct slugs. */
  lemma BuiltInIsOrdered()
    ensures NewestFirst(BuiltIn) && UniqueSlugs(BuiltIn)
  {
  }
}
