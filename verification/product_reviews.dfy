/** The product page's review list: the average rating, the sort menu and
    the star row drawn for a rating. A review's rating is a whole number of
    stars; the average is a real so that it can be drawn, and `None` stands
    for the `NaN` an empty list averages to. */
module ProductReviews {
  import opened Wrappers
  import opened Seqs
  import opened Sorting

  datatype Review = Review(id: int, user: string, rating: int, date: int, title: string, comment: string)

  function Sum(rs: seq<Review>): int {
    if |rs| == 0 then 0 else rs[0].rating + Sum(rs[1..])
  }

  /** `averageRating`: the sum of the ratings over their number, `NaN`
      (here `None`) for no reviews. */
  function AverageRating(rs: seq<Review>): (r: Option<real>)
    ensures r.None? <==> |rs| == 0
    ensures r.Some? ==> r.value * |rs| as real == Sum(rs) as real
  {
    if |rs| == 0 then None else Some(Sum(rs) as real / |rs| as real)
  }

  /** Ratings between `lo` and `hi` add up to between `n * lo` and `n * hi`. */
  lemma {:induction false} SumBounds(rs: seq<Review>, lo: int, hi: int)
    requires forall i | 0 <= i < |rs| :: lo <= rs[i].rating <= hi
    ensures |rs| * lo <= Sum(rs) <= |rs| * hi
  {
    if |rs| > 0 {
      var t := rs[1..];
      assert forall i | 0 <= i < |t| :: t[i] == rs[i + 1];
      SumBounds(t, lo, hi);
      var n := |t|;
      assert Sum(rs) == rs[0].rating + Sum(t);
      assert |rs| * lo == lo + n * lo && |rs| * hi == hi + n * hi;
    }
  }

  /** The average lies between the lowest and highest possible rating. */
  lemma AverageBounds(rs: seq<Review>, lo: int, hi: int)
    requires |rs| > 0
    requires forall i | 0 <= i < |rs| :: lo <= rs[i].rating <= hi
    ensures lo as real <= AverageRating(rs).value <= hi as real
  {
    SumBounds(rs, lo, hi);
    AverageBetween(Sum(rs), |rs|, lo, hi, AverageRating(rs).value);
  }

  /** A mean of `n` values, each between `lo` and `hi`, lies between them too. */
  lemma AverageBetween(sum: int, n: nat, lo: int, hi: int, avg: real)
    requires n > 0 && n * lo <= sum <= n * hi && avg * (n as real) == sum as real
    ensures lo as real <= avg <= hi as real
  {
    var m := n as real;
    assert (n * lo) as real == (lo as real) * m;
    assert (n * hi) as real == (hi as real) * m;
    ScaleBack(lo as real, avg, m);
    ScaleBack(avg, hi as real, m);
  }

  /** Multiplying both sides by the same positive number keeps their order. */
  lemma ScaleBack(x: real, y: real, n: real)
    requires n > 0.0 && x * n <= y * n
    ensures x <= y
  {
  }

  function NewestFirst(): Review -> int {
    Directed((r: Review) => r.date, false)
  }

  /** `sortedReviews`: `'date'` puts the newest first; every other option
      compares as equal, so the stable sort keeps the input order. */
  function SortReviews(rs: seq<Review>, sortBy: string): (r: seq<Review>)
    ensures multiset(r) == multiset(rs)
    ensures sortBy == "date" ==> forall i, j | 0 <= i < j < |r| :: r[i].date >= r[j].date
    ensures sortBy != "date" ==> r == rs
  {
    DescendingOrder(rs, (r: Review) => r.date);
    if sortBy == "date" then SortByKey(rs, NewestFirst())
    else
      ConstantKeyKeepsOrder(rs, (r: Review) => 0, 0);
      SortByKey(rs, (r: Review) => 0)
  }

  /** Among reviews dated the same, `'date'` keeps the input order. */
  lemma SameDayKeepsOrder(rs: seq<Review>, day: int)
    ensures WithKey(SortReviews(rs, "date"), NewestFirst(), -day) == WithKey(rs, NewestFirst(), -day)
  {
    assert SortReviews(rs, "date") == SortByKey(rs, NewestFirst());
    SortStable(rs, NewestFirst(), -day);
  }

  datatype Star = Full | Half | Empty

  /** The position of a kind of star in a rendered row. */
  function StarRank(s: Star): nat {
    match s
    case Full => 0
    case Half => 1
    case Empty => 2
  }

  function Repeat(x: Star, n: nat): (r: seq<Star>)
    ensures |r| == n && forall i | 0 <= i < n :: r[i] == x
  {
    seq(n, _ => x)
  }

  /** JavaScript's `r % 1`: the fraction, with the sign of `r`. */
  function Frac(r: real): (f: real)
    ensures r >= 0.0 ==> 0.0 <= f < 1.0
    ensures r < 0.0 ==> -1.0 < f <= 0.0
  {
    if r >= 0.0 then r - r.Floor as real else r + (-r).Floor as real
  }

  /** `renderStars(rating)`: `floor(rating)` full stars, a half star when
      the fraction is at least one half, then `5 - full - half` empty stars;
      a count below zero draws nothing, and `NaN` draws no star at all. */
  function RenderStars(rating: Option<real>): (stars: seq<Star>)
    ensures rating.None? ==> stars == []
    ensures rating.Some? ==>
      var full := rating.value.Floor;
      var half := Frac(rating.value) >= 0.5;
      && Count(stars, s => s == Full) == MaxZero(full)
      && Count(stars, s => s == Half) == (if half then 1 else 0)
      && Count(stars, s => s == Empty) == MaxZero(5 - full - (if half then 1 else 0))
    ensures forall i, j | 0 <= i < j < |stars| :: StarRank(stars[i]) <= StarRank(stars[j])
  {
    match rating
    case None => []
    case Some(r) =>
      var full := r.Floor;
      var half := Frac(r) >= 0.5;
      var a := Repeat(Full, MaxZero(full));
      var b := if half then [Half] else [];
      var c := Repeat(Empty, MaxZero(5 - full - (if half then 1 else 0)));
      StarCounts(a, b, c);
      StarsInOrder(a, b, c);
      a + b + c
  }

  /** Full stars, then at most one half star, then empty stars. */
  lemma StarsInOrder(a: seq<Star>, b: seq<Star>, c: seq<Star>)
    requires forall i | 0 <= i < |a| :: a[i] == Full
    requires forall i | 0 <= i < |b| :: b[i] == Half
    requires forall i | 0 <= i < |c| :: c[i] == Empty
    ensures forall i, j | 0 <= i < j < |a + b + c| :: StarRank((a + b + c)[i]) <= StarRank((a + b + c)[j])
  {
    var s := a + b + c;
    forall i, j | 0 <= i < j < |s|
      ensures StarRank(s[i]) <= StarRank(s[j])
    {
      assert i < |a| ==> s[i] == Full;
      assert |a| <= i < |a| + |b| ==> s[i] == Half;
      assert |a| + |b| <= j ==> s[j] == Empty;
      assert |a| <= j < |a| + |b| ==> s[j] == Half;
    }
  }

  lemma StarCounts(a: seq<Star>, b: seq<Star>, c: seq<Star>)
    requires forall i | 0 <= i < |a| :: a[i] == Full
    requires |b| <= 1 && forall i | 0 <= i < |b| :: b[i] == Half
    requires forall i | 0 <= i < |c| :: c[i] == Empty
    ensures Count(a + b + c, s => s == Full) == |a|
    ensures Count(a + b + c, s => s == Half) == |b|
    ensures Count(a + b + c, s => s == Empty) == |c|
  {
    var isFull, isHalf, isEmpty := (s: Star) => s == Full, (s: Star) => s == Half, (s: Star) => s == Empty;
    FilterAppend(a + b, c, isFull);
    FilterAppend(a, b, isFull);
    FilterAppend(a + b, c, isHalf);
    FilterAppend(a, b, isHalf);
    FilterAppend(a + b, c, isEmpty);
    FilterAppend(a, b, isEmpty);
    FilterAll(a, isFull);
    FilterAll(b, isHalf);
    FilterAll(c, isEmpty);
    FilterNone(a, isHalf);
    FilterNone(a, isEmpty);
    FilterNone(b, isFull);
    FilterNone(b, isEmpty);
    FilterNone(c, isFull);
    FilterNone(c, isHalf);
  }

  /** A rating from 0 to 5 draws exactly five stars, at most one of them
      half. */
  lemma FiveStars(r: real)
    requires 0.0 <= r <= 5.0
    ensures |RenderStars(Some(r))| == 5
    ensures Count(RenderStars(Some(r)), s => s == Half) <= 1
  {
    var stars := RenderStars(Some(r));
    var full := r.Floor;
    var half := Frac(r) >= 0.5;
    assert 0 <= full <= 5;
    assert full == 5 ==> !half;
    CountsCover(stars, (s: Star) => s, [Full, Half, Empty]);
    assert SumOver([Full, Half, Empty], k => CountKey(stars, (s: Star) => s, k))
      == CountKey(stars, (s: Star) => s, Full) + CountKey(stars, (s: Star) => s, Half)
         + CountKey(stars, (s: Star) => s, Empty);
    FilterExt(stars, KeyIs((s: Star) => s, Full), s => s == Full);
    FilterExt(stars, KeyIs((s: Star) => s, Half), s => s == Half);
    FilterExt(stars, KeyIs((s: Star) => s, Empty), s => s == Empty);
  }

  /** The summary row for reviews rated 0 to 5 has five stars; with no
      reviews it has none. */
  lemma SummaryStars(rs: seq<Review>)
    requires forall i | 0 <= i < |rs| :: 0 <= rs[i].rating <= 5
    ensures |rs| > 0 ==> |RenderStars(AverageRating(rs))| == 5
    ensures |rs| == 0 ==> RenderStars(AverageRating(rs)) == []
  {
    if |rs| > 0 {
      AverageBounds(rs, 0, 5);
      FiveStars(AverageRating(rs).value);
    }
  }
}
