/** The blog platform's helpers: truncation, reading time, slugs and the
    related-post ranking. */
module BlogHelpers {
  import opened Wrappers
  import opened Seqs
  import opened Text
  import opened Sorting

  /** A post; `date` is the post's date already read as a timestamp. */
  datatype Post = Post(
    id: int, title: string, excerpt: string, content: string,
    date: int, category: string, tags: seq<string>)

  const DefaultTruncateLength: int := 150

  /** `truncateText(text, length)`: the text when it fits, otherwise
      `text.slice(0, length)` and `'...'`; a negative length counts from the
      end, as `slice` does. */
  function TruncateText(text: string, length: int): (r: string)
    ensures |text| <= length ==> r == text
    ensures 0 <= length < |text| ==> r == text[..length] + "..."
    ensures length < 0 ==> r == text[..RelIndex(|text|, length)] + "..."
  {
    if |text| <= length then text else JsSlice(text, 0, length) + "..."
  }

  /** For a non-negative length, truncating twice is truncating once. */
  lemma TruncateTextIdempotent(text: string, length: int)
    requires length >= 0
    ensures TruncateText(TruncateText(text, length), length) == TruncateText(text, length)
  {
    var r := TruncateText(text, length);
    if |text| > length {
      assert r[..length] == text[..length];
    }
  }

  /** A negative length is not idempotent: each call cuts again. */
  lemma TruncateNegativeCutsAgain()
    ensures TruncateText("abcdef", -2) == "abcd..."
    ensures TruncateText(TruncateText("abcdef", -2), -2) == "abcd...."[..5] + "..."
  {
    assert "abcd..."[..5] == "abcd.";
  }

  const WordsPerMinute: nat := 200

  /** `calculateReadingTime`: the pieces of a split on white-space runs,
      divided by 200 and rounded up. */
  function ReadingTime(content: string): (minutes: nat)
    ensures minutes >= 1
    ensures (minutes - 1) * WordsPerMinute < |SplitSpaces(content)| <= minutes * WordsPerMinute
  {
    var words := |SplitSpaces(content)|;
    (words + WordsPerMinute - 1) / WordsPerMinute
  }

  /** The word count is one more than the number of white-space runs, so an
      empty or all-blank text reads as one word, one minute. */
  lemma ReadingTimeCountsRuns(content: string)
    ensures |SplitSpaces(content)| == CountRunsUpTo(content, |content|) + 1
    ensures CountRunsUpTo(content, |content|) < WordsPerMinute ==> ReadingTime(content) == 1
  {
    SplitSpacesCount(content);
  }

  predicate IsDash(c: char) { c == '-' }

  /** `s.replace(/p+/g, c)`: every maximal run of characters satisfying `p`
      becomes the single character `c`. */
  function ReplaceRuns(s: string, p: char -> bool, c: char): (r: string)
    ensures |r| <= |s|
  {
    ReplaceFrom(s, p, c, false)
  }

  /** The scan behind `ReplaceRuns`; `inRun` says the character before `s`
      satisfied `p`, so a run continuing here has already been written. */
  function ReplaceFrom(s: string, p: char -> bool, c: char, inRun: bool): (r: string)
    ensures |r| <= |s|
  {
    if |s| == 0 then ""
    else if !p(s[0]) then [s[0]] + ReplaceFrom(s[1..], p, c, false)
    else if inRun then ReplaceFrom(s[1..], p, c, true)
    else [c] + ReplaceFrom(s[1..], p, c, true)
  }

  /** What the scan writes: `c`, or a character of `s` outside `p`; never two
      `p` characters in a row; and, inside a run, no `p` character first. */
  predicate ScanShape(r: string, s: string, p: char -> bool, c: char, inRun: bool) {
    && (forall i | 0 <= i < |r| :: r[i] == c || (r[i] in s && !p(r[i])))
    && (forall i | 0 <= i < |r| - 1 :: p(r[i]) ==> !p(r[i + 1]))
    && (inRun && |r| > 0 ==> !p(r[0]))
  }

  lemma {:induction false} ReplaceFromShape(s: string, p: char -> bool, c: char, inRun: bool)
    ensures ScanShape(ReplaceFrom(s, p, c, inRun), s, p, c, inRun)
  {
    if |s| > 0 {
      var t := s[1..];
      var tail := ReplaceFrom(t, p, c, p(s[0]));
      ReplaceFromShape(t, p, c, p(s[0]));
      assert forall x | x in t :: x in s;
      if !p(s[0]) || !inRun {
        assert ReplaceFrom(s, p, c, inRun) == [if p(s[0]) then c else s[0]] + tail;
        WrittenHeadShape(s[0], tail, t, s, p, c, inRun);
      }
    }
  }

  /** Writing the scan's output for a first character `x` in front of the
      rest of the scan keeps its shape. */
  lemma WrittenHeadShape(x: char, tail: string, t: string, s: string, p: char -> bool, c: char, inRun: bool)
    requires ScanShape(tail, t, p, c, p(x))
    requires x in s && forall y | y in t :: y in s
    requires !p(x) || !inRun
    ensures ScanShape([if p(x) then c else x] + tail, s, p, c, inRun)
  {
    var r := [if p(x) then c else x] + tail;
    forall i | 0 <= i < |r| ensures r[i] == c || (r[i] in s && !p(r[i])) {
      if i > 0 {
        assert r[i] == tail[i - 1];
      }
    }
    forall i | 0 <= i < |r| - 1 ensures p(r[i]) ==> !p(r[i + 1]) {
      if i > 0 {
        assert r[i] == tail[i - 1] && r[i + 1] == tail[i];
      }
    }
  }

  lemma ReplaceRunsShape(s: string, p: char -> bool, c: char)
    ensures var r := ReplaceRuns(s, p, c);
      && (forall i | 0 <= i < |r| :: r[i] == c || (r[i] in s && !p(r[i])))
      && (forall i | 0 <= i < |r| - 1 :: p(r[i]) ==> !p(r[i + 1]))
  {
    ReplaceFromShape(s, p, c, false);
    assert ReplaceRuns(s, p, c) == ReplaceFrom(s, p, c, false);
    assert ScanShape(ReplaceRuns(s, p, c), s, p, c, false);
  }

  /** A string in which every `p` character is `c` and no two are adjacent
      is left as it is. */
  lemma ReplaceRunsFixed(s: string, p: char -> bool, c: char)
    requires forall i | 0 <= i < |s| :: p(s[i]) ==> s[i] == c
    requires forall i | 0 <= i < |s| - 1 :: p(s[i]) ==> !p(s[i + 1])
    ensures ReplaceRuns(s, p, c) == s
  {
    ReplaceFromFixed(s, p, c, false);
  }

  lemma {:induction false} ReplaceFromFixed(s: string, p: char -> bool, c: char, inRun: bool)
    requires forall i | 0 <= i < |s| :: p(s[i]) ==> s[i] == c
    requires forall i | 0 <= i < |s| - 1 :: p(s[i]) ==> !p(s[i + 1])
    requires inRun && |s| > 0 ==> !p(s[0])
    ensures ReplaceFrom(s, p, c, inRun) == s
  {
    if |s| > 0 {
      var t := s[1..];
      assert forall i | 0 <= i < |t| :: p(t[i]) ==> t[i] == c by {
        forall i | 0 <= i < |t| ensures p(t[i]) ==> t[i] == c {
          assert t[i] == s[i + 1];
        }
      }
      assert forall i | 0 <= i < |t| - 1 :: p(t[i]) ==> !p(t[i + 1]) by {
        forall i | 0 <= i < |t| - 1 ensures p(t[i]) ==> !p(t[i + 1]) {
          assert t[i] == s[i + 1] && t[i + 1] == s[i + 2];
        }
      }
      assert p(s[0]) && |t| > 0 ==> !p(t[0]);
      ReplaceFromFixed(t, p, c, p(s[0]));
      assert s == [s[0]] + t;
    }
  }

  /** `ReplaceRuns` writes only `c` and characters of `s` outside `p`. */
  lemma ReplaceRunsKeeps(s: string, p: char -> bool, c: char, q: char -> bool)
    requires forall i | 0 <= i < |s| :: !p(s[i]) ==> q(s[i])
    requires q(c)
    ensures forall i | 0 <= i < |ReplaceRuns(s, p, c)| :: q(ReplaceRuns(s, p, c)[i])
  {
    var r := ReplaceRuns(s, p, c);
    ReplaceRunsShape(s, p, c);
    forall i | 0 <= i < |r| ensures q(r[i]) {
      if r[i] != c {
        var j :| 0 <= j < |s| && s[j] == r[i];
      }
    }
  }

  /** The characters `[\w\s-]` that survive the first `replace`. */
  predicate SlugSource(c: char) { IsWordChar(c) || IsSpace(c) || c == '-' }

  /** The characters a slug is made of: `[a-z0-9_-]`. */
  predicate SlugChar(c: char) { IsLower(c) || IsDigit(c) || c == '_' || c == '-' }

  /** `generateSlug` before its final `trim`. */
  function SlugBody(text: string): string {
    ReplaceRuns(ReplaceRuns(Filter(Lower(text), SlugSource), IsSpace, '-'), IsDash, '-')
  }

  /** `generateSlug`: lower-case, drop everything outside `[\w\s-]`, turn
      white-space runs into `-`, collapse `-` runs, trim. */
  function GenerateSlug(text: string): (r: string)
    ensures forall i | 0 <= i < |r| :: SlugChar(r[i])
    ensures forall i | 0 <= i < |r| - 1 :: !(r[i] == '-' && r[i + 1] == '-')
    ensures r == SlugBody(text)
  {
    var body := SlugBody(text);
    SlugBodyChars(text);
    ReplaceRunsShape(ReplaceRuns(Filter(Lower(text), SlugSource), IsSpace, '-'), IsDash, '-');
    body
  }

  /** The body is already made of slug characters, so the final `trim` has
      nothing to remove. */
  lemma SlugBodyChars(text: string)
    ensures var b := SlugBody(text);
      (forall i | 0 <= i < |b| :: SlugChar(b[i])) && Trim(b) == b
  {
    var low := Lower(text);
    var kept := Filter(low, SlugSource);
    var dashed := ReplaceRuns(kept, IsSpace, '-');
    var b := ReplaceRuns(dashed, IsDash, '-');
    assert forall i | 0 <= i < |kept| :: !IsSpace(kept[i]) ==> SlugChar(kept[i]) by {
      forall i | 0 <= i < |kept| ensures !IsSpace(kept[i]) ==> SlugChar(kept[i]) {
        assert kept[i] in low;
      }
    }
    ReplaceRunsKeeps(kept, IsSpace, '-', SlugChar);
    ReplaceRunsKeeps(dashed, IsDash, '-', SlugChar);
    assert forall i | 0 <= i < |b| :: !IsSpace(b[i]);
  }

  /** `generateSlug` applied to a slug changes nothing. */
  lemma GenerateSlugIdempotent(text: string)
    ensures GenerateSlug(GenerateSlug(text)) == GenerateSlug(text)
  {
    var s := GenerateSlug(text);
    assert Lower(s) == s;
    FilterAll(s, SlugSource);
    ReplaceRunsFixed(s, IsSpace, '-');
    ReplaceRunsFixed(s, IsDash, '-');
  }

  /** Because white space is gone before the `trim`, an outer space
      survives as a dash. */
  lemma LeadingDashSurvives()
    ensures GenerateSlug(" a") == "-a"
  {
    assert Lower(" a") == " a";
    assert " a"[1..] == "a" && "a"[1..] == "";
    assert Filter("a", SlugSource) == "a";
    assert Filter(" a", SlugSource) == " a";
    assert ReplaceFrom("", IsSpace, '-', true) == "";
    assert ReplaceFrom("a", IsSpace, '-', true) == "a";
    assert ReplaceRuns(" a", IsSpace, '-') == "-a";
    ReplaceRunsFixed("-a", IsDash, '-');
  }

  /** `calculateRelevanceScore(current, other)`: 3 for a shared category,
      plus one per tag of `current` that `other` also carries. */
  function RelevanceScore(current: Post, other: Post): (score: nat)
    ensures current.category == other.category ==> score >= 3
    ensures score <= 3 + |current.tags|
    ensures current.category != other.category ==> score <= |current.tags|
  {
    (if current.category == other.category then 3 else 0)
      + Count(current.tags, t => t in other.tags)
  }

  /** A post scores highest against itself. */
  lemma SelfScoreIsMaximal(current: Post, other: Post)
    ensures RelevanceScore(current, current) == 3 + |current.tags|
    ensures RelevanceScore(current, other) <= RelevanceScore(current, current)
  {
    FilterAll(current.tags, t => t in current.tags);
  }

  const DefaultRelatedLimit: int := 3

  function NotPost(current: Post): Post -> bool {
    (p: Post) => p.id != current.id
  }

  function ScoreAgainst(current: Post): Post -> int {
    (p: Post) => RelevanceScore(current, p)
  }

  /** `getRelatedPosts`: the other posts, most relevant first (equal scores
      keep their order, `RelatedPostsStable`), then `slice(0, limit)`. */
  function RelatedPosts(current: Post, all: seq<Post>, limit: int): (r: seq<Post>)
    ensures limit >= 0 ==> |r| <= limit
    ensures forall i | 0 <= i < |r| :: r[i].id != current.id && r[i] in all
    ensures forall i, j | 0 <= i < j < |r| :: RelevanceScore(current, r[i]) >= RelevanceScore(current, r[j])
    ensures forall p, i | p in multiset(Filter(all, NotPost(current))) - multiset(r) && 0 <= i < |r| ::
      RelevanceScore(current, p) <= RelevanceScore(current, r[i])
  {
    RelatedPostsFacts(current, all, limit);
    JsSlice(Ranked(current, all), 0, limit)
  }

  lemma RelatedPostsFacts(current: Post, all: seq<Post>, limit: int)
    ensures var r := JsSlice(Ranked(current, all), 0, limit);
      && (limit >= 0 ==> |r| <= limit)
      && (forall i | 0 <= i < |r| :: r[i].id != current.id && r[i] in all)
      && (forall i, j | 0 <= i < j < |r| :: RelevanceScore(current, r[i]) >= RelevanceScore(current, r[j]))
      && (forall p, i | p in multiset(Filter(all, NotPost(current))) - multiset(r) && 0 <= i < |r| ::
            RelevanceScore(current, p) <= RelevanceScore(current, r[i]))
  {
    var ranked := Ranked(current, all);
    var k := RelIndex(|ranked|, limit);
    assert JsSlice(ranked, 0, limit) == ranked[..k];
    RankedPrefixFacts(current, all, k);
    LeftOutScoreNoHigher(current, all, k);
  }

  /** A prefix of the ranking holds other posts only, best first. */
  lemma RankedPrefixFacts(current: Post, all: seq<Post>, k: nat)
    requires k <= |Ranked(current, all)|
    ensures var r := Ranked(current, all)[..k];
      && (forall i | 0 <= i < |r| :: r[i].id != current.id && r[i] in all)
      && (forall i, j | 0 <= i < j < |r| :: RelevanceScore(current, r[i]) >= RelevanceScore(current, r[j]))
  {
    var ranked := Ranked(current, all);
    RankedFacts(current, all);
    assert forall i | 0 <= i < k :: ranked[..k][i] == ranked[i];
  }

  /** A post cut off the ranking scores no higher than any post kept. */
  lemma LeftOutScoreNoHigher(current: Post, all: seq<Post>, k: nat)
    requires k <= |Ranked(current, all)|
    ensures var ranked, others := Ranked(current, all), Filter(all, NotPost(current));
      forall p, i | p in multiset(others) - multiset(ranked[..k]) && 0 <= i < k ::
        RelevanceScore(current, p) <= RelevanceScore(current, ranked[i])
  {
    var ranked, others := Ranked(current, all), Filter(all, NotPost(current));
    RankedFacts(current, all);
    DescendingPrefix(others, ranked, ScoreAgainst(current), k);
    forall p, i | p in multiset(others) - multiset(ranked[..k]) && 0 <= i < k
      ensures RelevanceScore(current, p) <= RelevanceScore(current, ranked[i])
    {
      assert ScoreAgainst(current)(p) <= ScoreAgainst(current)(ranked[i]);
    }
  }

  /** Posts of equal relevance keep the order of `all`: those of score `v`
      that are returned are the first other posts of score `v`. */
  lemma RelatedPostsStable(current: Post, all: seq<Post>, limit: int, v: int)
    ensures WithKey(RelatedPosts(current, all, limit), ScoreAgainst(current), v)
      <= WithKey(Filter(all, NotPost(current)), ScoreAgainst(current), v)
  {
    var ranked := Ranked(current, all);
    var k := RelIndex(|ranked|, limit);
    assert RelatedPosts(current, all, limit) == ranked[..k];
    DescendingCutStable(Filter(all, NotPost(current)), ScoreAgainst(current), v, k);
  }

  /** The other posts, most relevant first. */
  function Ranked(current: Post, all: seq<Post>): seq<Post> {
    SortByKey(Filter(all, NotPost(current)), Directed(ScoreAgainst(current), false))
  }

  lemma RankedFacts(current: Post, all: seq<Post>)
    ensures var ranked := Ranked(current, all);
      && (forall x | x in ranked :: x in all && x.id != current.id)
      && (forall i, j | 0 <= i < j < |ranked| :: RelevanceScore(current, ranked[i]) >= RelevanceScore(current, ranked[j]))
  {
    var others := Filter(all, NotPost(current));
    var ranked := Ranked(current, all);
    DescendingOrder(others, ScoreAgainst(current));
    forall x | x in ranked ensures x in all && x.id != current.id {
      assert x in multiset(ranked);
      assert x in others && NotPost(current)(x);
    }
  }

  /** With a non-negative limit the result is the first `limit` posts of a
      reordering of all the other posts. */
  lemma RelatedPostsArePrefix(current: Post, all: seq<Post>, limit: int)
    requires limit >= 0
    ensures var others := Filter(all, NotPost(current));
      var r := RelatedPosts(current, all, limit);
      exists ranked: seq<Post> ::
        && multiset(ranked) == multiset(others)
        && (forall i, j | 0 <= i < j < |ranked| :: RelevanceScore(current, ranked[i]) >= RelevanceScore(current, ranked[j]))
        && r == ranked[..if limit < |ranked| then limit else |ranked|]
  {
    var ranked := Ranked(current, all);
    RankedFacts(current, all);
    assert RelatedPosts(current, all, limit) == ranked[..if limit < |ranked| then limit else |ranked|];
  }
}

/** The blog list page: the tag and search filters and the sort menu. */
module BlogList {
  import opened Seqs
  import opened Text
  import opened Sorting
  import opened BlogHelpers

  /** The tag filter: `'All'`, or posts carrying the tag. */
  predicate TagMatches(p: Post, tag: string) {
    tag == "All" || tag in p.tags
  }

  /** The search filter: an empty term keeps everything, any other term must
      occur, ignoring case, in the title, excerpt or content. */
  predicate SearchMatches(p: Post, term: string) {
    term == "" || ContainsIgnoreCase(p.title, term) || ContainsIgnoreCase(p.excerpt, term)
    || ContainsIgnoreCase(p.content, term)
  }

  function DateKey(p: Post): int { p.date }

  /** `sortPosts`: `'newest'` and `'oldest'` by date, `'a-z'` and `'z-a'` by
      the title's position in the collation order `collate`; anything else
      leaves the list as it is. Every case is a stable sort. */
  function SortPosts(posts: seq<Post>, option: string, collate: string -> int): (r: seq<Post>)
    ensures multiset(r) == multiset(posts)
    ensures option == "newest" ==> forall i, j | 0 <= i < j < |r| :: r[i].date >= r[j].date
    ensures option == "oldest" ==> forall i, j | 0 <= i < j < |r| :: r[i].date <= r[j].date
    ensures option == "a-z" ==> forall i, j | 0 <= i < j < |r| :: collate(r[i].title) <= collate(r[j].title)
    ensures option == "z-a" ==> forall i, j | 0 <= i < j < |r| :: collate(r[i].title) >= collate(r[j].title)
    ensures option !in {"newest", "oldest", "a-z", "z-a"} ==> r == posts
  {
    var byTitle := (p: Post) => collate(p.title);
    DescendingOrder(posts, DateKey);
    DescendingOrder(posts, byTitle);
    if option == "newest" then SortByKey(posts, Directed(DateKey, false))
    else if option == "oldest" then SortByKey(posts, DateKey)
    else if option == "a-z" then SortByKey(posts, byTitle)
    else if option == "z-a" then SortByKey(posts, Directed(byTitle, false))
    else posts
  }

  function Visible(tag: string, term: string): Post -> bool {
    (p: Post) => TagMatches(p, tag) && SearchMatches(p, term)
  }

  function HasTag(tag: string): Post -> bool {
    (p: Post) => tag in p.tags
  }

  function TermHit(term: string): Post -> bool {
    (p: Post) => ContainsIgnoreCase(p.title, term) || ContainsIgnoreCase(p.excerpt, term)
      || ContainsIgnoreCase(p.content, term)
  }

  /** The page's effect: tag filter when a tag is chosen, search filter when
      a term is typed, then the sort. */
  function ListPosts(posts: seq<Post>, tag: string, term: string, option: string, collate: string -> int): (r: seq<Post>)
    ensures multiset(r) == multiset(Filter(posts, Visible(tag, term)))
    ensures forall p :: p in r <==> p in posts && TagMatches(p, tag) && SearchMatches(p, term)
    ensures option == "newest" ==> forall i, j | 0 <= i < j < |r| :: r[i].date >= r[j].date
    ensures option == "oldest" ==> forall i, j | 0 <= i < j < |r| :: r[i].date <= r[j].date
    ensures option == "a-z" ==> forall i, j | 0 <= i < j < |r| :: collate(r[i].title) <= collate(r[j].title)
    ensures option == "z-a" ==> forall i, j | 0 <= i < j < |r| :: collate(r[i].title) >= collate(r[j].title)
    ensures option !in {"newest", "oldest", "a-z", "z-a"} ==> r == Filter(posts, Visible(tag, term))
  {
    var tagged := FilterIf(posts, tag != "All", HasTag(tag));
    var searched := FilterIf(tagged, term != "", TermHit(term));
    TwoFilters(posts, tag, term);
    SortPostsMembers(searched, option, collate);
    SortPosts(searched, option, collate)
  }

  /** Sorting neither adds nor drops a post. */
  lemma SortPostsMembers(posts: seq<Post>, option: string, collate: string -> int)
    ensures forall p :: p in SortPosts(posts, option, collate) <==> p in posts
  {
    var r := SortPosts(posts, option, collate);
    forall p ensures p in r <==> p in posts {
      assert p in r <==> p in multiset(r);
    }
  }

  /** The two switchable stages keep exactly the visible posts. */
  lemma TwoFilters(posts: seq<Post>, tag: string, term: string)
    ensures FilterIf(FilterIf(posts, tag != "All", HasTag(tag)), term != "", TermHit(term))
      == Filter(posts, Visible(tag, term))
  {
    var tagOk := (p: Post) => TagMatches(p, tag);
    var termOk := (p: Post) => SearchMatches(p, term);
    var tagged := FilterIf(posts, tag != "All", HasTag(tag));
    TagStage(posts, tag, tagOk);
    SearchStage(tagged, term, termOk);
    FilterFilterAs(posts, tagOk, termOk, Visible(tag, term));
  }

  lemma TagStage(posts: seq<Post>, tag: string, tagOk: Post -> bool)
    requires forall p :: tagOk(p) == TagMatches(p, tag)
    ensures FilterIf(posts, tag != "All", HasTag(tag)) == Filter(posts, tagOk)
  {
    FilterIfAs(posts, tag != "All", HasTag(tag), tagOk);
  }

  lemma SearchStage(posts: seq<Post>, term: string, termOk: Post -> bool)
    requires forall p :: termOk(p) == SearchMatches(p, term)
    ensures FilterIf(posts, term != "", TermHit(term)) == Filter(posts, termOk)
  {
    FilterIfAs(posts, term != "", TermHit(term), termOk);
  }

  /** With tag `'All'`, no search and an unknown sort option, the page shows
      every post in order. */
  lemma DefaultsShowEverything(posts: seq<Post>, option: string, collate: string -> int)
    requires option !in {"newest", "oldest", "a-z", "z-a"}
    ensures ListPosts(posts, "All", "", option, collate) == posts
  {
    FilterAll(posts, Visible("All", ""));
  }
}
