# on4 — a verified model of the site's content and dashboard logic

on4 is the website of an accounting firm together with its administration dashboard.
This project models the logic behind it:

- the public site's built-in blog catalogue, with its in-place newest-first sort, slug
  lookup, related articles and category list;
- the lead form of the hero section, which creates a contact with status `novo`;
- the testimonial carousel, with its wrap-around index and autoplay;
- the blog services: slug generation, read time and the published/draft counters;
- role-based permissions;
- the dashboard pages: overview, contacts, blog, users, gallery and the post editor;
- the blog post form.

Each page is a `class` whose fields are the page's React state. Each handler is a `method`.
Each method receives as parameters what the server answered, written `Threw` or
`Returned(value)` for a promise, plus the clock and any public URL, and states the page's
new state. The filters, label tables, slug and read-time computations are functions, and
lemmas state what they promise.

JavaScript's string built-ins are modelled in `JsText`: `trim()`, `split(",")`,
`split(/\s+/)`, `includes`, `Number.parseInt` and the decimal rendering of an integer.
Case mapping and canonical decomposition are per-code-point tables (`Tables`), passed as a
parameter. The lemmas hold for every table. Slug idempotence assumes only that the tables
leave `a-z`, `0-9` and `-` alone (`FixesSlugAlphabet`). `Latin` is a concrete table for
worked examples.

Two behaviours of the code worth knowing, both modelled as written:

- `calculateReadTime("")` is 1, not 0. Splitting the empty string gives one (empty) piece,
  so `ReadTimeOfEmpty` proves 1.
- The slug's final `trim()` removes whitespace only. Leading and trailing hyphens survive:
  `" Olá "` becomes `"-ola-"` (`SlugOfPaddedWord`, `LeadingSpaceBecomesHyphen`).

## Model

| member | source | states |
|---|---|---|
| Permissions.RoleName | lib/permissions.ts:3 | each role's name is non-empty |
| Permissions.ParseRole | lib/permissions.ts:3 | a parsed role has exactly the given name; any other string is not a role |
| Permissions.ParseRoleName | lib/permissions.ts:3 | parsing a role's name gives that role back |
| Permissions.HasRolePermission | lib/permissions.ts:14-39 | admin has all six permissions; editor has all but manage_users and edit_settings; viewer has only view_reports |
| Permissions.PermissionsMonotone | lib/permissions.ts:14-39 | every permission of viewer is an editor's, and every editor's is an admin's |
| Permissions.PermissionTable | lib/permissions.ts:14-39 | every role can view reports; only admin manages users and edits settings |
| Permissions.RoleString | lib/permissions.ts:49 | the user's role metadata when non-empty, otherwise "viewer" |
| Permissions.LookUp | lib/permissions.ts:50 | a role string that names no role grants nothing; a known role grants exactly its table entry |
| Permissions.HasPermission | lib/permissions.ts:41-55 | denied without a signed-in user, when the user lookup fails or finds nobody; otherwise the table lookup of the user's role |
| Permissions.GetUserRole | lib/permissions.ts:57-65 | the user's role string, or "viewer" when the lookup fails or finds nobody; never empty |
| Permissions.HasPermissionAgreesWithRole | lib/permissions.ts:41-69 | for a signed-in, found user, hasPermission agrees with hasRolePermission on getUserRole |
| Permissions.NoRoleMeansViewer | lib/permissions.ts:49 | a user without a role, or with an empty one, has exactly the viewer's permissions |
| Permissions.UnknownRoleGrantsNothing | lib/permissions.ts:49-50 | an unknown role grants nothing, but getUserRole still reports it |
| BlogStore.GenerateSlug | lib/blog-supabase.ts:241-250 | generateSlug, also written out inline by the editor's save (app/dashboard/editor/page.tsx:166-173); its shape, idempotence and worked examples are stated by the lemmas below |
| BlogStore.SlugBeforeTrim | lib/blog-supabase.ts:243-248 | the pipeline before trim(): lowercase, NFD, marks removed, disallowed characters removed, whitespace runs to one hyphen, hyphen runs to one; SlugBeforeTrimShape states its shape |
| BlogStore.SpacesToHyphens | lib/blog-supabase.ts:247 | `replace(/\s+/g, "-")`, ReplaceRuns over whitespace |
| BlogStore.CollapseHyphens | lib/blog-supabase.ts:248 | `replace(/-+/g, "-")`; CollapseLeavesNoDoubleHyphen and CollapseWithoutDoubleHyphen state what it does |
| BlogStore.ReplaceRuns | lib/blog-supabase.ts:247-248 | no matching character is left, and empty in iff empty out; ReplaceRunsRun and ReplaceRunsJoin state that each run becomes one replacement |
| BlogStore.ReplaceRunsStep | lib/blog-supabase.ts:247-248 | a leading run becomes one replacement followed by the rest; a leading non-match is kept |
| BlogStore.DropWholeRun | lib/blog-supabase.ts:247-248 | dropping the leading run of a maximal run followed by more text leaves exactly that text |
| BlogStore.DropRunAppend | lib/blog-supabase.ts:247-248 | a run inside a prefix that ends in a non-match stops within that prefix |
| BlogStore.DropRunKeepsLast | lib/blog-supabase.ts:247-248 | dropping a leading run keeps a non-matching last character |
| BlogStore.ReplaceRunsRun | lib/blog-supabase.ts:247-248 | a maximal non-empty run of matching characters at the front becomes exactly one replacement, and the rest is replaced on its own |
| BlogStore.ReplaceRunsAppend | lib/blog-supabase.ts:247-248 | text cut after a non-matching character is replaced piece by piece |
| BlogStore.ReplaceRunsAppendRun | lib/blog-supabase.ts:247-248 | the case of ReplaceRunsAppend where the prefix starts with a run |
| BlogStore.ReplaceRunsAppendKept | lib/blog-supabase.ts:247-248 | the case of ReplaceRunsAppend where the prefix starts with a kept character |
| BlogStore.ReplaceRunsJoin | lib/blog-supabase.ts:247-248 | match-free words joined by one matching character come out joined by one replacement |
| BlogStore.ReplaceRunsKeepsClass | lib/blog-supabase.ts:247-248 | replacing runs keeps a character class that holds for the input and for the replacement |
| BlogStore.ReplaceRunsWithoutMatch | lib/blog-supabase.ts:247-248 | without a matching character the text is unchanged |
| BlogStore.ReplaceRunsKeeps | lib/blog-supabase.ts:247 | a non-matching first character is kept |
| BlogStore.ReplaceRunsSingle | lib/blog-supabase.ts:247 | a lone matching character becomes the replacement |
| BlogStore.ReplaceRunsOneTrailing | lib/blog-supabase.ts:247 | one trailing match after match-free text becomes one replacement |
| BlogStore.GenerateSlugShape | lib/blog-supabase.ts:241-250 | a slug has only a-z, 0-9 and hyphens, and never two hyphens in a row |
| BlogStore.SlugBeforeTrimShape | lib/blog-supabase.ts:243-248 | before trim() the text already has only slug characters, no double hyphen and no whitespace |
| BlogStore.TrimRemovesNothing | lib/blog-supabase.ts:249 | the final trim() changes nothing, so hyphens at the ends stay |
| BlogStore.CollapseLeavesNoDoubleHyphen | lib/blog-supabase.ts:248 | after collapsing, no two hyphens are adjacent |
| BlogStore.CollapseWithoutDoubleHyphen | lib/blog-supabase.ts:248 | collapsing text without double hyphens changes nothing |
| BlogStore.SlugOfSlugShape | lib/blog-supabase.ts:241-250 | a text already shaped like a slug passes through unchanged |
| BlogStore.SlugIdempotent | lib/blog-supabase.ts:241-250 | the slug of a slug is itself |
| BlogStore.LeadingSpaceBecomesHyphen | lib/blog-supabase.ts:247-249 | a title starting with whitespace gives a slug starting with a hyphen |
| BlogStore.LatinFixesSlugAlphabet | lib/blog-supabase.ts:243-244 | the sample Latin tables leave the slug alphabet alone |
| BlogStore.ReadTime | lib/blog-supabase.ts:253-257 | at least one minute; the fewest whole minutes covering the words at 200 per minute |
| BlogStore.ReadTimeOfWords | lib/blog-supabase.ts:253-257 | for words joined by single spaces, the minutes are the ceiling of words/200 (200 words is 1, 201 is 2, 450 is 3) |
| BlogStore.ReadTimeOfEmpty | lib/blog-supabase.ts:255-256 | empty content reads in one minute |
| BlogStore.GetBlogStats | lib/blog-supabase.ts:208-238 | a failed query gives all zeros; otherwise total counts every row, published counts the rows whose flag is true, drafts the rows whose flag is false, and the two add up to total |
| BlogStore.PublishedCount | lib/blog-supabase.ts:221-223 | `filter(p => p.published)` keeps exactly the true flags, and true and false flags together are all rows |
| BlogStore.PublishingMovesOneDraft | lib/blog-supabase.ts:221-223 | publishing one draft adds one to published, takes one from drafts and keeps the total |
| SlugExamples.PaddedLowered | lib/blog-supabase.ts:243 | lowercasing " Olá " gives " olá " |
| SlugExamples.PaddedDecomposed | lib/blog-supabase.ts:244 | NFD splits the á into a and a combining acute accent |
| SlugExamples.DropOneMark | lib/blog-supabase.ts:245 | removing marks drops a combining mark that follows mark-free text |
| SlugExamples.PaddedUnaccented | lib/blog-supabase.ts:245 | mark removal gives " ola " |
| SlugExamples.PaddedAllowed | lib/blog-supabase.ts:246 | " ola " has no disallowed character |
| SlugExamples.PaddedHyphenedTail | lib/blog-supabase.ts:247 | "ola " becomes "ola-" |
| SlugExamples.PaddedHyphened | lib/blog-supabase.ts:247 | " ola " becomes "-ola-" |
| SlugExamples.PaddedSingleHyphens | lib/blog-supabase.ts:248 | "-ola-" has no double hyphen |
| SlugExamples.PaddedCollapsed | lib/blog-supabase.ts:248 | collapsing leaves "-ola-" |
| SlugExamples.SlugOfPaddedWord | lib/blog-supabase.ts:241-250 | generateSlug(" Olá ") is "-ola-" |
| SlugExamples.AccentedLowered | lib/blog-supabase.ts:243 | lowercasing "Ação" gives "ação" |
| SlugExamples.AccentedDecomposed | lib/blog-supabase.ts:244 | NFD splits ç and ã into base letters and marks |
| SlugExamples.AccentedUnaccented | lib/blog-supabase.ts:245 | mark removal gives "acao" |
| SlugExamples.AccentedAllowed | lib/blog-supabase.ts:246 | "acao" has no disallowed character |
| SlugExamples.AccentedUnchanged | lib/blog-supabase.ts:247-248 | the hyphen steps leave "acao" alone |
| SlugExamples.SlugOfAccentedWord | lib/blog-supabase.ts:241-250 | generateSlug("Ação") is "acao" |
| SlugExamples.ConcatAppend | lib/blog-supabase.ts:241-250 | the concatenation of two lists of pieces is the two concatenations joined |
| SlugExamples.ConcatTitle | lib/blog-supabase.ts:241 | the title's pieces concatenate to "Contabilidade para MEI: Guia 2024!" |
| SlugExamples.ConcatLowered | lib/blog-supabase.ts:243 | the lowered pieces concatenate to "contabilidade para mei: guia 2024!" |
| SlugExamples.ConcatAllowed | lib/blog-supabase.ts:246 | the filtered pieces concatenate to "contabilidade para mei guia 2024" |
| SlugExamples.FlatMapPieces | lib/blog-supabase.ts:243-244 | a per-character map of concatenated pieces is the concatenation of the mapped pieces |
| SlugExamples.FilterPieces | lib/blog-supabase.ts:245-246 | a filter of concatenated pieces is the concatenation of the filtered pieces |
| SlugExamples.LowerPiece | lib/blog-supabase.ts:243 | each title piece lowercases to its lowered piece |
| SlugExamples.LowerCapitalPiece | lib/blog-supabase.ts:243 | the pieces with capitals lowercase to "contab", " mei" and "guia" |
| SlugExamples.AsciiIsComposed | lib/blog-supabase.ts:244 | NFD leaves an ASCII character alone |
| SlugExamples.DecomposePiece | lib/blog-supabase.ts:244 | NFD leaves each lowered piece alone |
| SlugExamples.AllowedPiece | lib/blog-supabase.ts:246 | the allowed-character filter drops the colon and the exclamation mark and keeps the rest of each piece |
| SlugExamples.TitleLowered | lib/blog-supabase.ts:243 | lowercasing "Contabilidade para MEI: Guia 2024!" gives "contabilidade para mei: guia 2024!" |
| SlugExamples.TitleDecomposed | lib/blog-supabase.ts:244 | NFD leaves the lowered title alone |
| SlugExamples.TitleUnaccented | lib/blog-supabase.ts:245 | mark removal leaves the lowered title alone |
| SlugExamples.TitleAllowed | lib/blog-supabase.ts:246 | dropping disallowed characters gives "contabilidade para mei guia 2024" |
| SlugExamples.TitleWordsSpaced | lib/blog-supabase.ts:246 | the five words joined by spaces are the filtered title |
| SlugExamples.TitleWordsHyphened | lib/blog-supabase.ts:247 | the five words joined by hyphens are "contabilidade-para-mei-guia-2024" |
| SlugExamples.TitleWordsSpaceFree | lib/blog-supabase.ts:247 | each word is non-empty and holds no whitespace |
| SlugExamples.TitleHyphened | lib/blog-supabase.ts:247 | each space becomes a hyphen: "contabilidade-para-mei-guia-2024" |
| SlugExamples.TitleCollapsed | lib/blog-supabase.ts:248 | collapsing hyphens changes nothing |
| SlugExamples.SlugOfMultiWordTitle | lib/blog-supabase.ts:241-250 | generateSlug("Contabilidade para MEI: Guia 2024!") is "contabilidade-para-mei-guia-2024" |
| ServerSearch.Refreshed | app/dashboard/page.tsx:67-73 | under a blank term the table shows the whole list; otherwise the server's answer, or the previous list when the search threw |
| StaticBlog.Catalogue.constructor | lib/blog.ts:16-362 | the catalogue array holds the given articles |
| StaticBlog.Catalogue.GetBlogPosts | lib/blog.ts:364-366 | sorts the catalogue array in place, newest first, as a permutation, and returns that same array |
| StaticBlog.SortNewestFirst | lib/blog.ts:365 | the array ends newest first and is a permutation of what it held |
| StaticBlog.InsertBackward | lib/blog.ts:365 | one insertion step extends the sorted prefix by one and keeps the multiset |
| StaticBlog.InsertingStart | lib/blog.ts:365 | the insertion invariant holds before the first swap |
| StaticBlog.InsertingStep | lib/blog.ts:365 | a swap of an out-of-order pair keeps the insertion invariant |
| StaticBlog.InsertingDone | lib/blog.ts:365 | once no swap is needed the prefix is sorted |
| StaticBlog.FindBySlug | lib/blog.ts:368-370 | the first article with the slug, or None exactly when no article has it |
| StaticBlog.FindAfterReordering | lib/blog.ts:364-370 | with unique slugs, sorting does not change which article a slug finds |
| StaticBlog.GetRelatedPosts | lib/blog.ts:372-380 | nothing for an unknown slug; otherwise up to the limit, in catalogue order, articles with another slug that share its category or a tag; with a large enough limit, all of them |
| StaticBlog.IsRelated | lib/blog.ts:377-378 | another slug, and the same category or at least one common tag |
| StaticBlog.RelatedPostsFillLimit | lib/blog.ts:379 | a non-negative limit takes as many related articles as it allows: the smaller of the limit and the number of all related articles |
| StaticBlog.RelatedPostsGrowWithLimit | lib/blog.ts:379 | a smaller limit gives a prefix of a larger one |
| StaticBlog.GetBlogCategories | lib/blog.ts:382-385 | each article's category exactly once, and nothing else |
| StaticBlog.CategoriesInFirstAppearanceOrder | lib/blog.ts:383-384 | categories come in the order of their first appearance |
| StaticBlog.RelatedToMeiGuide | lib/blog.ts:372-380 | the MEI guide's related articles are the influencer article alone |
| StaticBlog.MeiGuideFound | lib/blog.ts:368-370 | the MEI guide's slug finds it |
| StaticBlog.MeiGuideRelations | lib/blog.ts:377-378 | the influencer article is related to the MEI guide; the IRPF article is not; the guide is not related to itself |
| StaticBlog.BuiltInCategories | lib/blog.ts:382-385 | the built-in categories are Tributação, Imposto de Renda and MEI |
| StaticBlog.BuiltInIsOrdered | lib/blog.ts:16-362 | the built-in articles are listed newest first and their slugs are unique |
| Hero.SetField | components/hero-section.tsx:22-29 | the named field takes the value; the other fields keep theirs |
| Hero.LeadRecord | components/hero-section.tsx:37-44 | the contact carries the form's four fields, status novo and the site-form note |
| Hero.LeadAsDashboardShowsIt | components/hero-section.tsx:155-160 | a lead for any offered category is labelled with its title on the dashboard and gets the blue "novo" badge |
| Hero.HeroSection.constructor | components/hero-section.tsx:12-20 | empty form, not submitting, not submitted |
| Hero.HeroSection.Change | components/hero-section.tsx:22-29 | only the changed field of the form changes |
| Hero.HeroSection.Submit | components/hero-section.tsx:31-65 | sends the lead record of the form; the submitted flag is set only on success; submitting ends either way |
| Hero.HeroSection.ResetAfterSuccess | components/hero-section.tsx:50-58 | clears the form and the submitted flag |
| Carousel.Wrap | components/testimonial-carousel.tsx:27-38 | any negative index goes to the last slide, any index at or past the slide count to the first, and an index in range is kept; with at least one slide the result is in range |
| Carousel.WrapAtEnds | components/testimonial-carousel.tsx:29-33 | stepping back from the first slide gives the last; stepping on from the last gives the first |
| Carousel.WrapClamps | components/testimonial-carousel.tsx:29-33 | any index at or past the end goes back to the first slide |
| Carousel.TicksWalkForward | components/testimonial-carousel.tsx:40-48 | autoplay ticks advance one slide each until the last |
| Carousel.AutoplayCycles | components/testimonial-carousel.tsx:40-48 | from the first slide, autoplay visits every slide in order and returns to the first after one lap |
| Carousel.TicksLeaveLast | components/testimonial-carousel.tsx:40-48 | a tick on the last slide returns to the first |
| Carousel.TestimonialCarousel.constructor | components/testimonial-carousel.tsx:24-25 | starts on the first slide, not paused |
| Carousel.TestimonialCarousel.UpdateIndex | components/testimonial-carousel.tsx:27-38 | sets the wrapped index; the index stays in range |
| Carousel.TestimonialCarousel.Prev | components/testimonial-carousel.tsx:70 | goes to the previous slide, wrapping |
| Carousel.TestimonialCarousel.Next | components/testimonial-carousel.tsx:77 | goes to the next slide, wrapping |
| Carousel.TestimonialCarousel.Indicator | components/testimonial-carousel.tsx:91 | goes to the chosen slide |
| Carousel.TestimonialCarousel.Tick | components/testimonial-carousel.tsx:40-48 | advances only under autoplay and while not paused |
| Carousel.TestimonialCarousel.SetPaused | components/testimonial-carousel.tsx:53-54 | hovering pauses and leaving resumes; the slide stays |
| Contacts.StatusName | lib/supabase.ts:21 | each status's name is non-empty |
| Contacts.ParseStatus | lib/supabase.ts:21 | a parsed status has exactly the given name; any other name is no status |
| Contacts.ParseStatusName | lib/supabase.ts:21 | parsing a status's name gives it back |
| Contacts.CategoryKey | app/dashboard/contacts/page.tsx:175-185 | each category's key is non-empty and has no space |
| Contacts.CategoryTitle | app/dashboard/contacts/page.tsx:175-185 | each category's title is non-empty and differs from its key, so the dashboard never shows a known key raw |
| Contacts.ParseCategory | app/dashboard/contacts/page.tsx:175-185 | a parsed category has exactly the given key; any other key is none |
| Contacts.CategoryLabel | app/dashboard/contacts/page.tsx:175-185 | a known key shows its title; anything else shows as itself |
| Contacts.CategoryLabelOfKey | app/dashboard/contacts/page.tsx:175-185 | every category's key is labelled with its title |
| Contacts.OfferedCategoriesAreAll | components/hero-section.tsx:155-160 | the form offers six distinct categories, which are all the categories |
| Contacts.BracketKey | components/hero-section.tsx:179-185 | each employee bracket's key is non-empty |
| Contacts.OfferedBracketsAreAll | components/hero-section.tsx:179-185 | the form offers seven distinct brackets, all of them, with distinct keys |
| Contacts.StatusColor | app/dashboard/contacts/page.tsx:160-173 | an unknown status gets the gray badge |
| Contacts.StatusColorsDistinct | app/dashboard/contacts/page.tsx:160-173 | every known status gets a non-gray badge, and no two statuses share one |
| Contacts.ContactMatches | app/dashboard/contacts/page.tsx:104-109 | the lowercased name, email or category contains the lowercased term |
| Contacts.FilterContacts | app/dashboard/contacts/page.tsx:100-117 | the filtered list is no longer than the list |
| Contacts.FilterContactsSelects | app/dashboard/contacts/page.tsx:100-117 | in order, exactly the contacts matching the search (when not blank) and the status filter (unless "all"); a blank search with "all" keeps everyone |
| Contacts.Edited | app/dashboard/contacts/page.tsx:137 | rows with the id become the updated row; the others stay |
| Contacts.Deleted | app/dashboard/contacts/page.tsx:151 | no row with the id is left |
| Contacts.DeleteAndEdit | app/dashboard/contacts/page.tsx:132-158 | deletion keeps every other row in order; deleting after editing is deleting; an absent id changes nothing |
| Contacts.ContactsPage.constructor | app/dashboard/contacts/page.tsx:52-60 | empty lists, blank search, status filter "all", loading |
| Contacts.ContactsPage.Show | app/dashboard/contacts/page.tsx:74-76 | stores the state and recomputes the filtered list |
| Contacts.ContactsPage.LoadContacts | app/dashboard/contacts/page.tsx:78-89 | a listing replaces the contacts; a failure keeps them; loading ends; the filtered list follows |
| Contacts.ContactsPage.SetSearchTerm | app/dashboard/contacts/page.tsx:74-76 | sets the term; the filtered list follows |
| Contacts.ContactsPage.SetStatusFilter | app/dashboard/contacts/page.tsx:74-76 | sets the status filter; the filtered list follows |
| Contacts.ContactsPage.Select | app/dashboard/contacts/page.tsx:52-60 | selects a contact for the dialogs |
| Contacts.ContactsPage.AddContact | app/dashboard/contacts/page.tsx:119-130 | the created contact goes first; a failure changes nothing |
| Contacts.ContactsPage.EditContact | app/dashboard/contacts/page.tsx:132-146 | with a selection and a reply, rows with the selected id become the reply and the selection clears; otherwise nothing changes |
| Contacts.ContactsPage.DeleteContact | app/dashboard/contacts/page.tsx:148-158 | on success the rows with the id leave; on failure nothing changes |
| Overview.Shown | app/dashboard/page.tsx:346 | the table shows the first five rows, or all when there are fewer |
| Overview.CountNote | app/dashboard/page.tsx:384-388 | the "Mostrando 5 de N contatos" note appears exactly when more than five are listed |
| Overview.NoteIffRowsHidden | app/dashboard/page.tsx:346-388 | the note appears exactly when rows are hidden; then five show; otherwise all show |
| Overview.OverviewPage.constructor | app/dashboard/page.tsx:67-73 | empty lists, blank search, loading |
| Overview.OverviewPage.Show | app/dashboard/page.tsx:67-73 | stores the state; when the list or term changed, the table's list is refreshed |
| Overview.OverviewPage.LoadContacts | app/dashboard/page.tsx:75-87 | a listing becomes both lists and then the search effect runs; a failure keeps them; loading ends |
| Overview.OverviewPage.SetSearchTerm | app/dashboard/page.tsx:107-120 | a changed term runs the server search; a blank term shows the whole list |
| Overview.OverviewPage.Select | app/dashboard/page.tsx:360-373 | selects a contact; nothing else changes |
| Overview.OverviewPage.AddContact | app/dashboard/page.tsx:122-133 | the created contact goes first and the table's list is refreshed; a failure changes nothing |
| Overview.OverviewPage.EditContact | app/dashboard/page.tsx:135-149 | with a selection and a reply, rows with the selected id become the reply and the selection clears; otherwise nothing changes |
| Overview.OverviewPage.DeleteContact | app/dashboard/page.tsx:151-161 | on success the rows with the id leave and the table's list is refreshed; otherwise nothing changes |
| BlogDashboard.ApplyPatch | app/dashboard/blog/page.tsx:169 | a patch changes at most the two flags it names and nothing else |
| BlogDashboard.TogglePublishedPatch | app/dashboard/blog/page.tsx:169 | the patch carries only the flipped published flag |
| BlogDashboard.ToggleFeaturedPatch | app/dashboard/blog/page.tsx:181 | the patch carries only the flipped featured flag |
| BlogDashboard.TogglesFlipOneFlag | app/dashboard/blog/page.tsx:167-188 | a toggle flips its own flag only, and toggling twice restores the row |
| BlogDashboard.StatusBadge | app/dashboard/blog/page.tsx:190-192 | published rows show "Publicado" in green; drafts show "Rascunho" in yellow |
| BlogDashboard.BadgeShowsStatus | app/dashboard/blog/page.tsx:308-310 | two badges share a text, or share a colour, exactly when their statuses are equal |
| BlogDashboard.ToggledRowInList | app/dashboard/blog/page.tsx:167-177 | after a toggle the post stands in the list with its flag flipped; other rows are unchanged |
| BlogDashboard.BlogDashboardPage.constructor | app/dashboard/blog/page.tsx:80-86 | empty lists, blank search, loading |
| BlogDashboard.BlogDashboardPage.Show | app/dashboard/blog/page.tsx:80-86 | stores the state; when the list or term changed, the table's list is refreshed |
| BlogDashboard.BlogDashboardPage.LoadPosts | app/dashboard/blog/page.tsx:88-100 | a listing becomes both lists and then the effect runs; a failure keeps them; loading ends |
| BlogDashboard.BlogDashboardPage.SetSearchTerm | app/dashboard/blog/page.tsx:111-124 | a changed term runs the search; a blank term shows all posts |
| BlogDashboard.BlogDashboardPage.Select | app/dashboard/blog/page.tsx:139-140 | selects a post; nothing else changes |
| BlogDashboard.BlogDashboardPage.AddPost | app/dashboard/blog/page.tsx:126-137 | the created post goes first; a failure changes nothing |
| BlogDashboard.BlogDashboardPage.EditPost | app/dashboard/blog/page.tsx:139-153 | with a selection and a reply, rows with the selected id become the reply and the selection clears; otherwise nothing changes |
| BlogDashboard.BlogDashboardPage.DeletePost | app/dashboard/blog/page.tsx:155-165 | on success the rows with the id leave; otherwise nothing changes |
| BlogDashboard.BlogDashboardPage.Toggle | app/dashboard/blog/page.tsx:167-188 | the returned row replaces the rows with the post's id; a failure changes nothing |
| BlogDashboard.BlogDashboardPage.TogglePublished | app/dashboard/blog/page.tsx:167-177 | sends the post's id with only the flipped published flag; the returned row replaces the rows with that id and the table's list is refreshed; a failure changes nothing |
| BlogDashboard.BlogDashboardPage.ToggleFeatured | app/dashboard/blog/page.tsx:179-188 | sends the post's id with only the flipped featured flag; the returned row replaces the rows with that id and the table's list is refreshed; a failure changes nothing |
| Users.UserMatches | app/dashboard/users/page.tsx:224-231 | the lowercased term is in the lowercased "first last" name, the first email or the role |
| Users.FilterUsers | app/dashboard/users/page.tsx:223-233 | every kept user's name, first email or role contains the lowercased term |
| Users.FilterUsersSelects | app/dashboard/users/page.tsx:223-233 | in order, exactly the matching users; the empty term keeps everyone |
| Users.RoleUpdated | app/dashboard/users/page.tsx:262-264 | the list keeps its length |
| Users.BanUpdated | app/dashboard/users/page.tsx:275-279 | the list keeps its length |
| Users.UpdatesTouchOneField | app/dashboard/users/page.tsx:259-299 | a role change sets only the role of users with the id; a ban or unban sets only their banned flag |
| Users.UnbanAfterBan | app/dashboard/users/page.tsx:272-299 | ban then unban leaves matching users unbanned with their roles, and others untouched |
| Users.RoleBadgeText | app/dashboard/users/page.tsx:441 | the badge shows the role, or "viewer" when there is none |
| Users.MissingRoleShowsViewer | app/dashboard/users/page.tsx:441 | no role and the empty role both show "viewer" |
| Users.UsersPage.constructor | app/dashboard/users/page.tsx:180-192 | empty lists, loading, blank search, invitation form with role "viewer" |
| Users.UsersPage.Shown | app/dashboard/users/page.tsx:223-233 | the shown rows are drawn, in order, from the users |
| Users.UsersPage.LoadUsers | app/dashboard/users/page.tsx:195-220 | a listing replaces the users and shows the sample invitation; a failure keeps both; loading ends |
| Users.UsersPage.SetSearchTerm | app/dashboard/users/page.tsx:183 | sets the term |
| Users.UsersPage.SetInvite | app/dashboard/users/page.tsx:189-192 | sets the invitation form |
| Users.UsersPage.SendInvite | app/dashboard/users/page.tsx:236-256 | sends exactly when email and role are non-empty; on success appends the answer and resets the form; otherwise nothing changes |
| Users.UsersPage.UpdateRole | app/dashboard/users/page.tsx:259-269 | on success the role of the users with the id changes |
| Users.UsersPage.BanUser | app/dashboard/users/page.tsx:272-284 | on success the users with the id are banned |
| Users.UsersPage.UnbanUser | app/dashboard/users/page.tsx:287-299 | on success the users with the id are unbanned |
| Users.UsersPage.SelectForDelete | app/dashboard/users/page.tsx:186 | selects the user to delete |
| Users.UsersPage.DeleteUser | app/dashboard/users/page.tsx:302-314 | the delete is requested exactly when a non-empty id is selected; on success the users with that id leave and the selection clears; otherwise nothing changes |
| Gallery.ToGalleryImage | app/dashboard/gallery/page.tsx:59-67 | id falls back to the name, size to 0, type to image/jpeg, creation time to now; name and URL are the file's |
| Gallery.ConvertAll | app/dashboard/gallery/page.tsx:53-69 | one record per listed file, in listing order |
| Gallery.HasExtension | app/dashboard/gallery/page.tsx:72 | the name ends, ignoring ASCII case, with one of the listed extensions |
| Gallery.ListedImages | app/dashboard/gallery/page.tsx:72 | in order, exactly the converted files whose names pass the extension test |
| Gallery.FilterImages | app/dashboard/gallery/page.tsx:83-95 | the view is no longer than the images |
| Gallery.MatchesImage | app/dashboard/gallery/page.tsx:86-92 | the name contains the term, ignoring case, unless the term is blank; and the type contains the filter unless it is "all" |
| Gallery.FilterImagesSelects | app/dashboard/gallery/page.tsx:83-95 | in order, exactly the images matching the search (when not blank) and the type (unless "all"); with neither, every image |
| Gallery.WithoutName | app/dashboard/gallery/page.tsx:136 | deleting never lengthens the list |
| Gallery.WithoutNameRemoves | app/dashboard/gallery/page.tsx:136 | in order, exactly the images with other names |
| Gallery.CountOfType | app/dashboard/gallery/page.tsx:154-157 | a type count is at most the number of images |
| Gallery.CountOfTypeSteps | app/dashboard/gallery/page.tsx:154-157 | the count is 0 for no images and grows by one exactly for an image whose type contains the marker |
| Gallery.GetImageStats | app/dashboard/gallery/page.tsx:152-160 | the total is the sum of sizes, non-negative for non-negative sizes; the four counts are the numbers of images whose type contains jpeg, png, gif and webp |
| Gallery.DeleteReducesTotal | app/dashboard/gallery/page.tsx:136-153 | deleting a name takes exactly the sizes of the images with that name off the total |
| Gallery.GalleryPage.constructor | app/dashboard/gallery/page.tsx:30-31 | no images, blank search, type filter "all", loading |
| Gallery.GalleryPage.LoadImages | app/dashboard/gallery/page.tsx:41-81 | a listing replaces the images with its image files; a failure keeps them; loading ends; the view follows |
| Gallery.GalleryPage.SetSearchTerm | app/dashboard/gallery/page.tsx:37-39 | sets the term; the view follows |
| Gallery.GalleryPage.SetFilterType | app/dashboard/gallery/page.tsx:37-39 | sets the type filter; the view follows |
| Gallery.GalleryPage.DeleteImage | app/dashboard/gallery/page.tsx:130-142 | on success the images of that name leave; otherwise nothing changes; the view follows |
| Editor.TrimAll | app/dashboard/editor/page.tsx:182 | each piece trimmed, in order |
| Editor.ParseTags | app/dashboard/editor/page.tsx:180-183 | the tags are, in order, the non-empty trimmed comma pieces, and each is clean |
| Editor.ParseJoinedTags | app/dashboard/editor/page.tsx:180-183 | joining clean tags with commas and parsing gives them back |
| Editor.Excerpt | app/dashboard/editor/page.tsx:179 | a given excerpt is kept; otherwise the title's first 150 characters |
| Editor.ExcerptFallback | app/dashboard/editor/page.tsx:179 | a short title is its own excerpt; a long one is cut at 150 |
| Editor.FontSizeCommand | app/dashboard/editor/page.tsx:123-128 | the size is applied exactly when the answer is non-empty and parses to 1 through 7, and then as typed |
| Editor.FontSizeOfNumeral | app/dashboard/editor/page.tsx:125 | a typed number is accepted exactly when it is from 1 to 7 |
| Editor.PickerWithinGallery | app/dashboard/editor/page.tsx:81 | every picker image is a gallery image, and SVG files are gallery images but not picker images |
| Editor.CanSave | app/dashboard/editor/page.tsx:154-162 | saving goes ahead only when the title and the content are both non-blank |
| Editor.PreviewContent | app/dashboard/editor/page.tsx:213-224 | the preview has the title, the content, the excerpt fallback, the parsed tags and now |
| Editor.EditorPage.constructor | app/dashboard/editor/page.tsx:40-47 | empty draft and gallery, not saving |
| Editor.EditorPage.LoadGallery | app/dashboard/editor/page.tsx:55-85 | a listing replaces the picker images with its image files; a failure keeps them |
| Editor.EditorPage.SavePost | app/dashboard/editor/page.tsx:153-211 | nothing is sent when the title or the content is blank; otherwise the record with the generated slug, excerpt, tags, author placeholder and timestamps; success clears the editor, failure only ends saving |
| PostForm.SetText | components/blog-post-form.tsx:61-64 | the named field takes the value; every other field is kept |
| PostForm.InitialData | components/blog-post-form.tsx:22-33 | a new post starts blank with the default author; an edited post starts from its fields, with fallbacks for author and image |
| PostForm.WithoutTag | components/blog-post-form.tsx:80-85 | the tag is gone; every other tag stays, in order |
| PostForm.RemoveUndoesAdd | components/blog-post-form.tsx:70-85 | removing a tag just added restores the list |
| PostForm.RemoveKeepsNoDuplicates | components/blog-post-form.tsx:80-85 | removing keeps the tags distinct |
| PostForm.SubsequenceNoDuplicates | components/blog-post-form.tsx:80-85 | a subsequence of distinct tags is distinct |
| PostForm.Form.constructor | components/blog-post-form.tsx:22-35 | the form starts from the post's initial data with an empty tag input |
| PostForm.Form.Change | components/blog-post-form.tsx:38-64 | only the named field changes, except that changing a new post's title to a different non-empty title also sets the slug to that title's slug |
| PostForm.Form.Switch | components/blog-post-form.tsx:66-68 | the switch sets its own flag |
| PostForm.Form.SetNewTag | components/blog-post-form.tsx:35 | sets the tag input only |
| PostForm.Form.AddTag | components/blog-post-form.tsx:70-78 | a non-blank, new trimmed tag is appended and the input clears; otherwise nothing changes; the tags stay distinct |
| PostForm.Form.KeyPress | components/blog-post-form.tsx:87-92 | Enter adds the tag; any other key does nothing |
| PostForm.Form.RemoveTag | components/blog-post-form.tsx:80-85 | removes the tag |
| PostForm.Form.Submit | components/blog-post-form.tsx:47-59 | submits the data with its read time; a newly published post gets now as its publication time; other posts keep theirs |
| JsText.DropRun | lib/blog-supabase.ts:249 | drops exactly the leading run of matching characters |
| JsText.TrimEnd | lib/blog-supabase.ts:249 | drops exactly the trailing whitespace |
| JsText.Trim | lib/blog-supabase.ts:249 | everything before LeadingSpaces(s) is whitespace, the result sits in the text right there and is followed only by whitespace, and it neither starts nor ends with whitespace, so exactly the outer whitespace is removed |
| JsText.InnerSlice | lib/blog-supabase.ts:249 | a blank prefix dropped and then a blank suffix dropped leave the slice at the prefix's end, followed only by whitespace |
| JsText.LeadingSpaces | lib/blog-supabase.ts:249 | the count of leading whitespace is at most the length; LeadingSpacesRun states what it counts |
| JsText.LeadingSpacesRun | lib/blog-supabase.ts:249 | the first LeadingSpaces(s) characters are whitespace and the next one is not |
| JsText.TrimEmptyIffAllSpace | app/dashboard/page.tsx:68 | trim() gives "" exactly when the text is all whitespace |
| JsText.TrimWithoutSpaces | lib/blog-supabase.ts:249 | text without whitespace is unchanged by trim() |
| JsText.TrimIdempotent | app/dashboard/editor/page.tsx:182 | trimming twice is trimming once |
| JsText.TrimKeepsOut | app/dashboard/editor/page.tsx:181-182 | trimming adds no character |
| JsText.ContainsEmpty | app/dashboard/users/page.tsx:229 | every text includes "" |
| JsText.Split | app/dashboard/editor/page.tsx:181 | split gives at least one piece and no piece holds the separator |
| JsText.JoinSplit | app/dashboard/editor/page.tsx:181 | joining the pieces with the separator restores the text |
| JsText.SplitPiece | app/dashboard/editor/page.tsx:181 | a separator-free prefix joins the first piece |
| JsText.SplitAfterSeparator | app/dashboard/editor/page.tsx:181 | a leading separator gives an empty first piece |
| JsText.SplitJoin | app/dashboard/editor/page.tsx:181 | splitting separator-free pieces joined by the separator gives them back |
| JsText.SplitOnSpaceRuns | lib/blog-supabase.ts:255 | at least one piece, none holding whitespace |
| JsText.SpaceRunsSkipRun | lib/blog-supabase.ts:255 | within a whitespace run no further run starts |
| JsText.SplitOnSpaceRunsCount | lib/blog-supabase.ts:255 | for every text, the number of pieces is one more than the number of maximal whitespace runs |
| JsText.SplitOnSpaceRunsCons | lib/blog-supabase.ts:255 | a leading non-space joins the first piece |
| JsText.SplitOnSpaceRunsAfterWord | lib/blog-supabase.ts:255 | a leading word joins the first piece |
| JsText.SplitOnSpaceRunsAfterSpace | lib/blog-supabase.ts:255 | one leading space before a word gives an empty first piece |
| JsText.SplitJoinedWords | lib/blog-supabase.ts:255 | words joined by single spaces split back into those words |
| JsText.FlatMapAppend | lib/blog-supabase.ts:243-244 | a per-character map of two texts joined is the two maps joined |
| JsText.JoinStep | lib/blog-supabase.ts:255 | a join of several pieces is the first piece, the separator and the join of the rest |
| JsText.JoinStartsWithFirst | lib/blog-supabase.ts:255 | a join starts with the first piece's first character |
| JsText.AsciiFold | app/dashboard/gallery/page.tsx:72 | each ASCII capital folds to its own small letter (code point + 32); everything else is kept |
| JsText.FlatMap | lib/blog-supabase.ts:243-244 | the empty text maps to the empty text |
| JsText.FlatMapIdentity | lib/blog-supabase.ts:243-244 | a per-character map that keeps each character keeps the text |
| JsText.LowerEmpty | app/dashboard/users/page.tsx:229 | lowercasing "" gives "" |
| JsText.DigitValue | app/dashboard/editor/page.tsx:125 | a digit's value is below 16, and -1 marks a non-digit |
| JsText.LeadingDigits | app/dashboard/editor/page.tsx:125 | the longest prefix of digits in the radix |
| JsText.DecimalString | app/dashboard/page.tsx:386 | a number renders as a non-empty string of decimal digits |
| JsText.DecimalStringValue | app/dashboard/page.tsx:386 | the digits of the rendering have the number's value |
| JsText.AllDigitsLead | app/dashboard/editor/page.tsx:125 | an all-digit text is its own leading digit run |
| JsText.ParseUnsignedDecimal | app/dashboard/editor/page.tsx:125 | decimal digits parse to their value |
| JsText.ParseUnsigned | app/dashboard/editor/page.tsx:125 | reads the longest digit prefix, in base 16 after 0x or 0X and in base 10 otherwise; None without a digit |
| JsText.ParseInt | app/dashboard/editor/page.tsx:125 | `Number.parseInt`: leading whitespace and one sign skipped, then the unsigned read, None standing for NaN; the lemmas below state its value on numerals |
| JsText.ParseWithoutPrefix | app/dashboard/editor/page.tsx:125 | without leading space or sign, parseInt is the unsigned parse |
| JsText.ParseDecimalDigits | app/dashboard/editor/page.tsx:125 | parseInt of decimal digits gives their value |
| JsText.ParseDecimalString | app/dashboard/editor/page.tsx:125 | parseInt of a rendered number gives the number |

## Left out

- Case mapping and NFD decomposition are per-code-point tables given as a parameter, not the
  Unicode data. Strings are sequences of code points, not UTF-16 code units. `"Tributação"`
  is not worked as a concrete slug; `"Ação"` covers the same accents.
- Dates are opaque strings or, in the static catalogue, integer time values. `new Date()`,
  `toISOString` and `getTime` are not modelled. "Now" is a parameter.
- StaticBlog.Catalogue.GetBlogPosts: the contract states newest-first order and the same
  multiset of articles, but not stability. The engine's `Array.prototype.sort` is stable,
  and the insertion sort that stands in for it swaps only a strictly newer article, so
  articles with equal dates keep their order in both. That order is not proved.
- Carousel.TestimonialCarousel: the slide count is fixed when the carousel is created. A
  change in the number of children between renders is not modelled, and the source does
  not re-clamp `activeIndex` when it happens.
- The article bodies (Markdown) and all rendering (JSX, ReactMarkdown, dialogs, toasts,
  console output) are not modelled.
- `formatFileSize` is not modelled, because it uses floating point and logarithms.
- The gallery upload (`handleUpload`) is not modelled: it calls the storage service with
  random file names and then reloads.
- `copyImageUrl` (the clipboard) is not modelled.
- Server queries are parameters: `getContacts`, `createContact`, `updateContact`,
  `deleteContact`, `searchContacts`, `getAllBlogPosts`, `searchBlogPosts` (`ilike` matching),
  the storage listing and removal, and the users endpoints. `getContactStats` and the pages'
  `loadStats` calls are not modelled.
- Users.UsersPage.SendInvite: the endpoint's answer is kept as `Option<Invitation>`, because
  the call returns the JSON's `invitation` field, which may be absent.
- Users.UsersPage.LoadUsers: the sample invitation the page shows is a parameter; its
  timestamp is computed from the clock.
- The editor's `document.execCommand`, `prompt`, `window.getSelection`, heading, quote,
  code-block, image and link insertion are not modelled. `changeFontSize` is modelled on the
  prompt's answer (`FontSizeCommand`).
- Timers are not modelled. The carousel's `setInterval` becomes `Tick`, one call per period.
  The hero form's three-second `setTimeout` becomes `ResetAfterSuccess`.
- The order in which concurrent promises settle, and races between a search and a newer
  edit, are not modelled. Each handler sees its own reply.
- Contacts.CategoryLabel: a category key that names a property of every JavaScript object
  (`"constructor"`, `"toString"`) would be looked up on the prototype. The model shows such a
  key as itself.
- `Number.parseInt` is modelled for radix 10 and 16 prefixes with Dafny's unbounded
  integers. Precision loss beyond 2^53 is not modelled.
