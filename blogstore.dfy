/** The blog library over the hosted `blog_posts` table: the post record, slug generation,
    read-time estimation and the published/draft counters. The queries themselves are
    calls into the hosted database and appear in the model only as their results. */
module BlogStore {
  import opened Wrappers
  import opened JsText
  import Seqs

  /** A row of `blog_posts`. Timestamps are the ISO strings the database returns. */
  datatype Post = Post(
    id: string,
    title: string,
    slug: string,
    excerpt: string,
    content: string,
    image: Option<string>,
    author: string,
    category: string,
    tags: seq<string>,
    readTime: int,
    published: bool,
    featured: bool,
    createdAt: string,
    updatedAt: string,
    publishedAt: Option<string>)

  // ---------------------------------------------------------------------------
  // Slugs
  // ---------------------------------------------------------------------------

  /** The slug alphabet: `a`-`z`, `0`-`9` and `-`. */
  predicate IsSlugChar(c: char) {
    ('a' <= c <= 'z') || ('0' <= c <= '9') || c == '-'
  }

  predicate IsHyphen(c: char) {
    c == '-'
  }

  /** The block U+0300..U+036F of combining diacritical marks. */
  predicate IsCombiningMark(c: char) {
    '\U{0300}' <= c <= '\U{036F}'
  }

  /** The class `[a-z0-9\s-]`. */
  predicate IsAllowed(c: char) {
    IsSlugChar(c) || IsSpace(c)
  }

  predicate IsNotMark(c: char) {
    !IsCombiningMark(c)
  }

  predicate AllSlugChars(s: string) {
    forall i :: 0 <= i < |s| ==> IsSlugChar(s[i])
  }

  predicate NoDoubleHyphen(s: string) {
    forall i :: 0 <= i < |s| - 1 ==> !(s[i] == '-' && s[i + 1] == '-')
  }

  /** What the slug lemmas need of the runtime's Unicode data: lowercasing and
      decomposition leave every slug character alone. */
  ghost predicate FixesSlugAlphabet(t: Tables) {
    forall c :: IsSlugChar(c) ==> t.lower(c) == [c] && t.decompose(c) == [c]
  }

  /** `s.replace(/x+/g, w)` where `p` is the class `x`: every maximal run of characters
      satisfying `p` becomes one `w`. */
  function ReplaceRuns(s: string, p: char -> bool, w: char): (r: string)
    ensures forall i :: 0 <= i < |r| ==> r[i] == w || !p(r[i])
    ensures s == [] <==> r == []
    ensures s != [] ==> r[0] == (if p(s[0]) then w else s[0])
    decreases |s|
  {
    if s == [] then []
    else if p(s[0]) then
      [w] + ReplaceRuns(DropRun(s, p), p, w)
    else [s[0]] + ReplaceRuns(s[1..], p, w)
  }

  /** Replacing runs introduces no character outside a class that holds `w` and all of `s`. */
  lemma {:induction false} ReplaceRunsKeepsClass(s: string, p: char -> bool, w: char, q: char -> bool)
    requires q(w) && forall i :: 0 <= i < |s| ==> q(s[i])
    ensures forall i :: 0 <= i < |ReplaceRuns(s, p, w)| ==> q(ReplaceRuns(s, p, w)[i])
    decreases |s|
  {
    if s != [] {
      var head := if p(s[0]) then w else s[0];
      var tail := if p(s[0]) then DropRun(s, p) else s[1..];
      assert |tail| < |s| && tail == s[|s| - |tail|..];
      forall i | 0 <= i < |tail| ensures q(tail[i]) {
        assert tail[i] == s[|s| - |tail| + i];
      }
      ReplaceRunsKeepsClass(tail, p, w, q);
      var r := ReplaceRuns(tail, p, w);
      assert ReplaceRuns(s, p, w) == [head] + r;
      forall i | 0 <= i < |[head] + r| ensures q(([head] + r)[i]) {
        if i > 0 {
          assert ([head] + r)[i] == r[i - 1];
        }
      }
    }
  }

  /** `.replace(/\s+/g, "-")`. */
  function SpacesToHyphens(s: string): string {
    ReplaceRuns(s, IsSpace, '-')
  }

  /** `.replace(/-+/g, "-")`. */
  function CollapseHyphens(s: string): string {
    ReplaceRuns(s, IsHyphen, '-')
  }

  /** Every stage of `generateSlug` before the final `trim()`. */
  function SlugBeforeTrim(t: Tables, title: string): string {
    var lowered := ToLower(t, title);
    var decomposed := Decompose(t, lowered);
    var unaccented := Seqs.Filter(decomposed, IsNotMark);
    var allowed := Seqs.Filter(unaccented, IsAllowed);
    CollapseHyphens(SpacesToHyphens(allowed))
  }

  /** `generateSlug(title)`: lower-case, decompose, strip combining marks, drop characters
      outside `[a-z0-9\s-]`, turn whitespace runs into `-`, collapse `-` runs, trim. */
  function GenerateSlug(t: Tables, title: string): string {
    Trim(SlugBeforeTrim(t, title))
  }

  /** A slug holds only `[a-z0-9-]` and never two hyphens in a row. */
  lemma GenerateSlugShape(t: Tables, title: string)
    ensures AllSlugChars(GenerateSlug(t, title))
    ensures NoDoubleHyphen(GenerateSlug(t, title))
  {
    SlugBeforeTrimShape(t, title);
    TrimRemovesNothing(t, title);
  }

  lemma {:induction false} CollapseLeavesNoDoubleHyphen(s: string)
    ensures NoDoubleHyphen(CollapseHyphens(s))
    decreases |s|
  {
    if s != [] {
      if IsHyphen(s[0]) {
        var d := DropRun(s, IsHyphen);
        CollapseLeavesNoDoubleHyphen(d);
        var rest := CollapseHyphens(d);
        assert CollapseHyphens(s) == ['-'] + rest;
        assert rest != [] ==> rest[0] != '-';
      } else {
        CollapseLeavesNoDoubleHyphen(s[1..]);
        assert CollapseHyphens(s) == [s[0]] + CollapseHyphens(s[1..]);
      }
    }
  }

  /** The text before `trim()` already has the slug shape and no whitespace. */
  lemma SlugBeforeTrimShape(t: Tables, title: string)
    ensures AllSlugChars(SlugBeforeTrim(t, title))
    ensures NoDoubleHyphen(SlugBeforeTrim(t, title))
    ensures NoSpaces(SlugBeforeTrim(t, title))
  {
    var unaccented := Seqs.Filter(Decompose(t, ToLower(t, title)), IsNotMark);
    var allowed := Seqs.Filter(unaccented, IsAllowed);
    var hyphened := SpacesToHyphens(allowed);
    ReplaceRunsKeepsClass(allowed, IsSpace, '-', IsAllowed);
    assert forall i :: 0 <= i < |hyphened| ==> IsSlugChar(hyphened[i]);
    ReplaceRunsKeepsClass(hyphened, IsHyphen, '-', IsSlugChar);
    CollapseLeavesNoDoubleHyphen(hyphened);
  }

  /** The final `trim()` removes nothing: whitespace was already turned into hyphens. */
  lemma TrimRemovesNothing(t: Tables, title: string)
    ensures GenerateSlug(t, title) == SlugBeforeTrim(t, title)
  {
    SlugBeforeTrimShape(t, title);
    TrimWithoutSpaces(SlugBeforeTrim(t, title));
  }

  lemma {:induction false} ReplaceRunsWithoutMatch(s: string, p: char -> bool, w: char)
    requires forall i :: 0 <= i < |s| ==> !p(s[i])
    ensures ReplaceRuns(s, p, w) == s
    decreases |s|
  {
    if s != [] {
      ReplaceRunsWithoutMatch(s[1..], p, w);
    }
  }

  lemma {:induction false} CollapseWithoutDoubleHyphen(s: string)
    requires NoDoubleHyphen(s)
    ensures CollapseHyphens(s) == s
    decreases |s|
  {
    if s != [] {
      assert NoDoubleHyphen(s[1..]);
      CollapseWithoutDoubleHyphen(s[1..]);
      if IsHyphen(s[0]) {
        assert DropRun(s[1..], IsHyphen) == s[1..];
        assert DropRun(s, IsHyphen) == s[1..];
      }
    }
  }

  /** A string already in the slug shape passes every stage unchanged. */
  lemma SlugOfSlugShape(t: Tables, s: string)
    requires FixesSlugAlphabet(t)
    requires AllSlugChars(s) && NoDoubleHyphen(s)
    ensures SlugBeforeTrim(t, s) == s
  {
    assert forall i :: 0 <= i < |s| ==> t.lower(s[i]) == [s[i]];
    FlatMapIdentity(t.lower, s);
    assert forall i :: 0 <= i < |s| ==> t.decompose(s[i]) == [s[i]];
    FlatMapIdentity(t.decompose, s);
    Seqs.FilterKeepsAll(s, IsNotMark);
    Seqs.FilterKeepsAll(s, IsAllowed);
    ReplaceRunsWithoutMatch(s, IsSpace, '-');
    CollapseWithoutDoubleHyphen(s);
  }

  /** Slugging a slug gives the same slug, for any Unicode data that leaves the slug alphabet alone. */
  lemma SlugIdempotent(t: Tables, title: string)
    requires FixesSlugAlphabet(t)
    ensures GenerateSlug(t, GenerateSlug(t, title)) == GenerateSlug(t, title)
  {
    var s := GenerateSlug(t, title);
    GenerateSlugShape(t, title);
    SlugOfSlugShape(t, s);
    TrimRemovesNothing(t, s);
  }

  /** Whitespace at the start of a title survives as a leading `-`; trimming does not remove it. */
  lemma LeadingSpaceBecomesHyphen(t: Tables, c: char, rest: string)
    requires IsSpace(c) && t.lower(c) == [c] && t.decompose(c) == [c]
    ensures GenerateSlug(t, [c] + rest) != [] && GenerateSlug(t, [c] + rest)[0] == '-'
  {
    var title := [c] + rest;
    assert title[1..] == rest;
    assert ToLower(t, title) == [c] + ToLower(t, rest);
    var lowered := ToLower(t, title);
    assert lowered[1..] == ToLower(t, rest);
    assert Decompose(t, lowered) == [c] + Decompose(t, ToLower(t, rest));
    var decomposed := Decompose(t, lowered);
    assert decomposed[1..] == Decompose(t, ToLower(t, rest));
    var unaccented := Seqs.Filter(decomposed, IsNotMark);
    assert unaccented[0] == c;
    var allowed := Seqs.Filter(unaccented, IsAllowed);
    assert allowed[0] == c;
    TrimRemovesNothing(t, title);
  }

  /** A Latin-1 subset of the Unicode tables: ASCII and Latin-1 upper-case letters lower-case,
      and the accented lower-case vowels, `ç`, `ñ` and `ÿ` decompose into a base letter and
      the combining mark U+0300 (grave), U+0301 (acute), U+0302 (circumflex), U+0303 (tilde),
      U+0308 (diaeresis), U+030A (ring) or U+0327 (cedilla). */
  function LatinLower(c: char): seq<char> {
    if ('A' <= c <= 'Z') || ('\U{00C0}' <= c <= '\U{00DE}' && c != '\U{00D7}')
    then [(c as int + 32) as char]
    else [c]
  }

  function LatinDecompose(c: char): seq<char> {
    match c
    case 'à' => ['a', '\U{0300}'] case 'á' => ['a', '\U{0301}'] case 'â' => ['a', '\U{0302}']
    case 'ã' => ['a', '\U{0303}'] case 'ä' => ['a', '\U{0308}'] case 'å' => ['a', '\U{030A}']
    case 'ç' => ['c', '\U{0327}']
    case 'è' => ['e', '\U{0300}'] case 'é' => ['e', '\U{0301}'] case 'ê' => ['e', '\U{0302}']
    case 'ë' => ['e', '\U{0308}']
    case 'ì' => ['i', '\U{0300}'] case 'í' => ['i', '\U{0301}'] case 'î' => ['i', '\U{0302}']
    case 'ï' => ['i', '\U{0308}']
    case 'ñ' => ['n', '\U{0303}']
    case 'ò' => ['o', '\U{0300}'] case 'ó' => ['o', '\U{0301}'] case 'ô' => ['o', '\U{0302}']
    case 'õ' => ['o', '\U{0303}'] case 'ö' => ['o', '\U{0308}']
    case 'ù' => ['u', '\U{0300}'] case 'ú' => ['u', '\U{0301}'] case 'û' => ['u', '\U{0302}']
    case 'ü' => ['u', '\U{0308}']
    case 'ý' => ['y', '\U{0301}'] case 'ÿ' => ['y', '\U{0308}']
    case _ => [c]
  }

  const Latin := Tables(LatinLower, LatinDecompose)

  lemma LatinFixesSlugAlphabet()
    ensures FixesSlugAlphabet(Latin)
  {
  }

  lemma ReplaceRunsKeeps(c: char, s: string, p: char -> bool, w: char)
    requires !p(c)
    ensures ReplaceRuns([c] + s, p, w) == [c] + ReplaceRuns(s, p, w)
  {
    assert ([c] + s)[1..] == s;
  }

  lemma ReplaceRunsSingle(c: char, s: string, p: char -> bool, w: char)
    requires p(c) && (s == [] || !p(s[0]))
    ensures ReplaceRuns([c] + s, p, w) == [w] + ReplaceRuns(s, p, w)
  {
    assert ([c] + s)[1..] == s;
    assert DropRun(s, p) == s;
  }

  /** A word followed by one whitespace character: only that character becomes `w`. */
  lemma {:induction false} ReplaceRunsOneTrailing(u: string, c: char, p: char -> bool, w: char)
    requires forall i :: 0 <= i < |u| ==> !p(u[i])
    requires p(c)
    ensures ReplaceRuns(u + [c], p, w) == u + [w]
    decreases |u|
  {
    if u == [] {
      assert u + [c] == [c] + [];
      ReplaceRunsSingle(c, [], p, w);
    } else {
      assert u + [c] == [u[0]] + (u[1..] + [c]);
      ReplaceRunsKeeps(u[0], u[1..] + [c], p, w);
      ReplaceRunsOneTrailing(u[1..], c, p, w);
      assert [u[0]] + (u[1..] + [w]) == u + [w];
    }
  }

  /** Dropping a whole run of matching characters leaves exactly the text after it. */
  lemma {:induction false} DropWholeRun(u: string, s: string, p: char -> bool)
    requires forall i :: 0 <= i < |u| ==> p(u[i])
    requires s == [] || !p(s[0])
    ensures DropRun(u + s, p) == s
    decreases |u|
  {
    if u == [] {
      assert u + s == s;
    } else {
      assert (u + s)[1..] == u[1..] + s;
      DropWholeRun(u[1..], s, p);
    }
  }

  /** The leading run of a text that ends outside the run lies wholly inside that text. */
  lemma {:induction false} DropRunAppend(a: string, b: string, p: char -> bool)
    requires a != [] && !p(a[|a| - 1])
    ensures DropRun(a + b, p) == DropRun(a, p) + b
    decreases |a|
  {
    if p(a[0]) {
      assert (a + b)[1..] == a[1..] + b;
      DropRunAppend(a[1..], b, p);
    }
  }

  /** A maximal run of matching characters, of any length, becomes one `w`. */
  lemma ReplaceRunsRun(u: string, s: string, p: char -> bool, w: char)
    requires u != [] && forall i :: 0 <= i < |u| ==> p(u[i])
    requires s == [] || !p(s[0])
    ensures ReplaceRuns(u + s, p, w) == [w] + ReplaceRuns(s, p, w)
  {
    assert (u + s)[0] == u[0];
    DropWholeRun(u, s, p);
  }

  /** A text that ends outside the run keeps its last character after the run is dropped. */
  lemma DropRunKeepsLast(a: string, p: char -> bool)
    requires a != [] && !p(a[|a| - 1])
    ensures DropRun(a, p) != [] && DropRun(a, p)[|DropRun(a, p)| - 1] == a[|a| - 1]
  {
  }

  /** One step of `ReplaceRuns`: a leading run becomes `w`, any other head is kept. */
  lemma ReplaceRunsStep(s: string, p: char -> bool, w: char)
    requires s != []
    ensures p(s[0]) ==> ReplaceRuns(s, p, w) == [w] + ReplaceRuns(DropRun(s, p), p, w)
    ensures !p(s[0]) ==> ReplaceRuns(s, p, w) == [s[0]] + ReplaceRuns(s[1..], p, w)
  {
  }

  /** Runs never span a non-matching character, so the text can be cut after one. */
  lemma {:induction false} ReplaceRunsAppend(a: string, b: string, p: char -> bool, w: char)
    requires a == [] || !p(a[|a| - 1])
    ensures ReplaceRuns(a + b, p, w) == ReplaceRuns(a, p, w) + ReplaceRuns(b, p, w)
    decreases |a|
  {
    if a == [] {
      assert a + b == b;
    } else if p(a[0]) {
      DropRunKeepsLast(a, p);
      ReplaceRunsAppend(DropRun(a, p), b, p, w);
      ReplaceRunsAppendRun(a, b, p, w);
    } else {
      var t := a[1..];
      assert a == [a[0]] + t && a + b == [a[0]] + (t + b);
      ReplaceRunsAppend(t, b, p, w);
      ReplaceRunsAppendKept(a[0], t, b, p, w);
    }
  }

  /** The step of `ReplaceRunsAppend` for a text that starts with a run. */
  lemma ReplaceRunsAppendRun(a: string, b: string, p: char -> bool, w: char)
    requires a != [] && p(a[0]) && !p(a[|a| - 1])
    requires ReplaceRuns(DropRun(a, p) + b, p, w) == ReplaceRuns(DropRun(a, p), p, w) + ReplaceRuns(b, p, w)
    ensures ReplaceRuns(a + b, p, w) == ReplaceRuns(a, p, w) + ReplaceRuns(b, p, w)
  {
    var d := DropRun(a, p);
    DropRunAppend(a, b, p);
    assert (a + b)[0] == a[0];
    ReplaceRunsStep(a + b, p, w);
    ReplaceRunsStep(a, p, w);
    Seqs.Regroup([w], ReplaceRuns(d, p, w), ReplaceRuns(b, p, w), ReplaceRuns(d + b, p, w),
      ReplaceRuns(a + b, p, w), ReplaceRuns(a, p, w));
  }

  /** The step of `ReplaceRunsAppend` for a text that starts with a kept character. */
  lemma ReplaceRunsAppendKept(c: char, t: string, b: string, p: char -> bool, w: char)
    requires !p(c)
    requires ReplaceRuns(t + b, p, w) == ReplaceRuns(t, p, w) + ReplaceRuns(b, p, w)
    ensures ReplaceRuns([c] + (t + b), p, w) == ReplaceRuns([c] + t, p, w) + ReplaceRuns(b, p, w)
  {
    ReplaceRunsKeeps(c, t + b, p, w);
    ReplaceRunsKeeps(c, t, p, w);
    Seqs.Regroup([c], ReplaceRuns(t, p, w), ReplaceRuns(b, p, w), ReplaceRuns(t + b, p, w),
      ReplaceRuns([c] + (t + b), p, w), ReplaceRuns([c] + t, p, w));
  }

  /** Words without a matching character, separated by the matching `c`, come out separated by `w`. */
  lemma {:induction false} ReplaceRunsJoin(ws: seq<string>, c: char, p: char -> bool, w: char)
    requires p(c)
    requires forall k :: 0 <= k < |ws| ==> ws[k] != [] && forall i :: 0 <= i < |ws[k]| ==> !p(ws[k][i])
    ensures ReplaceRuns(Join(ws, c), p, w) == Join(ws, w)
    decreases |ws|
  {
    if |ws| == 1 {
      ReplaceRunsWithoutMatch(ws[0], p, w);
    } else if |ws| > 1 {
      var first, others := ws[0], ws[1..];
      var rest := Join(others, c);
      JoinStep(ws, c);
      JoinStep(ws, w);
      assert first != [] && !p(first[|first| - 1]);
      ReplaceRunsAppend(first, [c] + rest, p, w);
      ReplaceRunsWithoutMatch(first, p, w);
      assert others[0] == ws[1];
      JoinStartsWithFirst(others, c);
      ReplaceRunsRun([c], rest, p, w);
      ReplaceRunsJoin(others, c, p, w);
    }
  }

  // ---------------------------------------------------------------------------
  // Read time
  // ---------------------------------------------------------------------------

  const WordsPerMinute := 200

  /** `calculateReadTime(content)`: `Math.ceil(content.split(/\s+/).length / 200)`. */
  function ReadTime(content: string): (minutes: int)
    ensures minutes >= 1
    ensures (minutes - 1) * WordsPerMinute < |SplitOnSpaceRuns(content)| <= minutes * WordsPerMinute
  {
    var pieces := |SplitOnSpaceRuns(content)|;
    (pieces + WordsPerMinute - 1) / WordsPerMinute
  }

  /** For words separated by single spaces the estimate is the word count over 200, rounded up. */
  lemma ReadTimeOfWords(ws: seq<string>)
    requires |ws| >= 1 && forall k :: 0 <= k < |ws| ==> IsWord(ws[k])
    ensures (ReadTime(Join(ws, ' ')) - 1) * WordsPerMinute < |ws| <= ReadTime(Join(ws, ' ')) * WordsPerMinute
    ensures |ws| == 200 ==> ReadTime(Join(ws, ' ')) == 1
    ensures |ws| == 201 ==> ReadTime(Join(ws, ' ')) == 2
    ensures |ws| == 450 ==> ReadTime(Join(ws, ' ')) == 3
  {
    SplitJoinedWords(ws);
  }

  lemma ReadTimeOfEmpty()
    ensures ReadTime("") == 1
  {
  }

  // ---------------------------------------------------------------------------
  // Statistics
  // ---------------------------------------------------------------------------

  datatype BlogStats = BlogStats(total: int, published: int, drafts: int)

  predicate IsPublished(flag: bool) {
    flag
  }

  /** `getBlogStats()` given the query's `published` column, or `Threw` when the query
      reported an error or threw: then every counter is 0. */
  function GetBlogStats(rows: Outcome<seq<bool>>): (s: BlogStats)
    ensures rows.Threw? ==> s == BlogStats(0, 0, 0)
    ensures rows.Returned? ==> s.total == |rows.value|
    ensures rows.Returned? ==> s.published == multiset(rows.value)[true] && s.drafts == multiset(rows.value)[false]
    ensures s.published + s.drafts == s.total
    ensures 0 <= s.published <= s.total
  {
    match rows
    case Threw => BlogStats(0, 0, 0)
    case Returned(flags) =>
      PublishedCount(flags);
      var published := |Seqs.Filter(flags, IsPublished)|;
      BlogStats(|flags|, published, |flags| - published)
  }

  /** The rows kept by `filter(p => p.published)` are the `true` flags, and every other row
      is a draft. */
  lemma {:induction false} PublishedCount(flags: seq<bool>)
    ensures |Seqs.Filter(flags, IsPublished)| == multiset(flags)[true]
    ensures multiset(flags)[true] + multiset(flags)[false] == |flags|
    decreases |flags|
  {
    if flags != [] {
      PublishedCount(flags[1..]);
      assert flags == [flags[0]] + flags[1..];
      assert multiset(flags) == multiset([flags[0]]) + multiset(flags[1..]);
    }
  }

  /** Publishing one draft moves it from the draft count to the published count. */
  lemma PublishingMovesOneDraft(flags: seq<bool>, i: nat)
    requires i < |flags| && !flags[i]
    ensures GetBlogStats(Returned(flags[i := true]))
         == var s := GetBlogStats(Returned(flags)); BlogStats(s.total, s.published + 1, s.drafts - 1)
  {
    var after := flags[i := true];
    assert flags == flags[..i] + [false] + flags[i + 1..];
    assert after == flags[..i] + [true] + flags[i + 1..];
    Seqs.FilterAppend(flags[..i] + [false], flags[i + 1..], IsPublished);
    Seqs.FilterAppend(flags[..i], [false], IsPublished);
    Seqs.FilterAppend(flags[..i] + [true], flags[i + 1..], IsPublished);
    Seqs.FilterAppend(flags[..i], [true], IsPublished);
  }
}
