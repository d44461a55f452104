/** The five-criterion restaurant filter of the choice screen: style text,
    price tier, delivery, area text and minimum rating, each of which may be
    left at its "any" default. */
module Filters {
  import opened Text
  import opened Seqs
  import opened Records

  /** The filter form. Text criteria are inactive when blank after trimming;
      `None` is the 'Any' price, the null delivery choice and the 'Any' rating. */
  datatype Criteria = Criteria(
    style: string,
    price: Option<Price>,
    delivery: Option<bool>,
    area: string,
    minRating: Option<Rating>)

  /** Every criterion at its default, as the reset button leaves them. */
  const AnyCriteria := Criteria("", None, None, "", None)

  /** A text criterion is active when it is not blank, that is, when its
      trimmed text is not empty (see `TextActiveIffTrimmed`). */
  predicate TextActive(text: string) { !AllSpaces(text) }

  lemma TextActiveIffTrimmed(text: string)
    ensures TextActive(text) <==> Trim(text) != []
  {
  }

  /** Case-insensitive substring test of a field against trimmed filter text. */
  predicate FoldedContains(field: string, text: string) {
    Contains(ToLower(field), ToLower(Trim(text)))
  }

  predicate StyleOk(c: Criteria, r: Restaurant) {
    TextActive(c.style) ==> FoldedContains(r.style, c.style)
  }

  predicate PriceOk(c: Criteria, r: Restaurant) {
    c.price.Some? ==> r.price == c.price.value
  }

  predicate DeliveryOk(c: Criteria, r: Restaurant) {
    c.delivery.Some? ==> r.delivery == c.delivery.value
  }

  predicate AreaOk(c: Criteria, r: Restaurant) {
    TextActive(c.area) ==> FoldedContains(r.area, c.area)
  }

  predicate RatingOk(c: Criteria, r: Restaurant) {
    c.minRating.Some? ==> r.rating >= c.minRating.value
  }

  /** The reference meaning of a filter: a restaurant matches when it meets
      every active criterion, each judged on its own. */
  predicate Matches(c: Criteria, r: Restaurant) {
    StyleOk(c, r) && PriceOk(c, r) && DeliveryOk(c, r) && AreaOk(c, r) && RatingOk(c, r)
  }

  /** The test each pass hands to `filter`. */
  function StyleTest(c: Criteria): Restaurant -> bool { (r: Restaurant) => FoldedContains(r.style, c.style) }
  function PriceTest(c: Criteria): Restaurant -> bool
    requires c.price.Some?
  {
    (r: Restaurant) => r.price == c.price.value
  }
  function DeliveryTest(c: Criteria): Restaurant -> bool
    requires c.delivery.Some?
  {
    (r: Restaurant) => r.delivery == c.delivery.value
  }
  function AreaTest(c: Criteria): Restaurant -> bool { (r: Restaurant) => FoldedContains(r.area, c.area) }
  function RatingTest(c: Criteria): Restaurant -> bool
    requires c.minRating.Some?
  {
    (r: Restaurant) => r.rating >= c.minRating.value
  }

  function StylePass(rs: seq<Restaurant>, c: Criteria): seq<Restaurant> {
    if TextActive(c.style) then Filter(rs, StyleTest(c)) else rs
  }

  function PricePass(rs: seq<Restaurant>, c: Criteria): seq<Restaurant> {
    if c.price.Some? then Filter(rs, PriceTest(c)) else rs
  }

  function DeliveryPass(rs: seq<Restaurant>, c: Criteria): seq<Restaurant> {
    if c.delivery.Some? then Filter(rs, DeliveryTest(c)) else rs
  }

  function AreaPass(rs: seq<Restaurant>, c: Criteria): seq<Restaurant> {
    if TextActive(c.area) then Filter(rs, AreaTest(c)) else rs
  }

  function RatingPass(rs: seq<Restaurant>, c: Criteria): seq<Restaurant> {
    if c.minRating.Some? then Filter(rs, RatingTest(c)) else rs
  }

  /** The five passes of the apply handler, in its order: each active
      criterion narrows the list left by the passes before it. */
  function Apply(all: seq<Restaurant>, c: Criteria): (r: seq<Restaurant>)
    ensures |r| <= |all|
    ensures forall x :: x in r <==> x in all && Matches(c, x)
  {
    RatingPass(AreaPass(DeliveryPass(PricePass(StylePass(all, c), c), c), c), c)
  }

  /** The reference predicate as a filter test. */
  function MatchTest(c: Criteria): Restaurant -> bool { (r: Restaurant) => Matches(c, r) }

  /** One pass, active or not, is a filter by `ok`, the criterion's own
      `...Ok` predicate. */
  lemma PassIsFilter(rs: seq<Restaurant>, active: bool, test: Restaurant -> bool, ok: Restaurant -> bool)
    requires forall r :: ok(r) == (active ==> test(r))
    ensures (if active then Filter(rs, test) else rs) == Filter(rs, ok)
  {
    if active {
      FilterExtensional(rs, test, ok);
    } else {
      FilterKeepsAll(rs, ok);
    }
  }

  /** The criteria up to the k-th pass, as a filter test. */
  predicate MatchesFirst(c: Criteria, k: nat, r: Restaurant) {
    && (k >= 1 ==> StyleOk(c, r))
    && (k >= 2 ==> PriceOk(c, r))
    && (k >= 3 ==> DeliveryOk(c, r))
    && (k >= 4 ==> AreaOk(c, r))
    && (k >= 5 ==> RatingOk(c, r))
  }

  function FirstTest(c: Criteria, k: nat): Restaurant -> bool { (r: Restaurant) => MatchesFirst(c, k, r) }

  /** The criterion checked by the k-th pass, as a filter test. */
  function OkTest(c: Criteria, k: nat): Restaurant -> bool {
    (r: Restaurant) =>
      if k == 1 then StyleOk(c, r)
      else if k == 2 then PriceOk(c, r)
      else if k == 3 then DeliveryOk(c, r)
      else if k == 4 then AreaOk(c, r)
      else RatingOk(c, r)
  }

  /** The pass that checks the k-th criterion. */
  function Pass(rs: seq<Restaurant>, c: Criteria, k: nat): seq<Restaurant> {
    if k == 1 then StylePass(rs, c)
    else if k == 2 then PricePass(rs, c)
    else if k == 3 then DeliveryPass(rs, c)
    else if k == 4 then AreaPass(rs, c)
    else RatingPass(rs, c)
  }

  /** Each pass, active or not, filters by its own criterion. */
  lemma PassFiltersByOk(rs: seq<Restaurant>, c: Criteria, k: nat)
    requires 1 <= k <= 5
    ensures Pass(rs, c, k) == Filter(rs, OkTest(c, k))
  {
    if k == 1 {
      PassIsFilter(rs, TextActive(c.style), StyleTest(c), OkTest(c, 1));
    } else if k == 2 {
      if c.price.Some? {
        PassIsFilter(rs, true, PriceTest(c), OkTest(c, 2));
      } else {
        FilterKeepsAll(rs, OkTest(c, 2));
      }
    } else if k == 3 {
      if c.delivery.Some? {
        PassIsFilter(rs, true, DeliveryTest(c), OkTest(c, 3));
      } else {
        FilterKeepsAll(rs, OkTest(c, 3));
      }
    } else if k == 4 {
      PassIsFilter(rs, TextActive(c.area), AreaTest(c), OkTest(c, 4));
    } else {
      if c.minRating.Some? {
        PassIsFilter(rs, true, RatingTest(c), OkTest(c, 5));
      } else {
        FilterKeepsAll(rs, OkTest(c, 5));
      }
    }
  }

  /** After the first k passes, the next pass leaves the restaurants meeting
      the first k + 1 criteria. */
  lemma NextPass(all: seq<Restaurant>, prev: seq<Restaurant>, c: Criteria, k: nat)
    requires 1 <= k < 5
    requires prev == Filter(all, FirstTest(c, k))
    ensures Pass(prev, c, k + 1) == Filter(all, FirstTest(c, k + 1))
  {
    PassFiltersByOk(prev, c, k + 1);
    FilterFilter(all, FirstTest(c, k), OkTest(c, k + 1), FirstTest(c, k + 1));
  }

  /** The sequential passes compute exactly the restaurants that match the
      reference predicate, in their original order. */
  lemma ApplyIsFilterByMatches(all: seq<Restaurant>, c: Criteria)
    ensures Apply(all, c) == Filter(all, MatchTest(c))
  {
    var s1 := Pass(all, c, 1);
    PassFiltersByOk(all, c, 1);
    FilterExtensional(all, OkTest(c, 1), FirstTest(c, 1));
    var s2 := Pass(s1, c, 2);
    NextPass(all, s1, c, 1);
    var s3 := Pass(s2, c, 3);
    NextPass(all, s2, c, 2);
    var s4 := Pass(s3, c, 4);
    NextPass(all, s3, c, 3);
    var s5 := Pass(s4, c, 5);
    NextPass(all, s4, c, 4);
    assert Apply(all, c) == s5;
    FilterExtensional(all, FirstTest(c, 5), MatchTest(c));
  }

  /** Applying a filter yields an order-preserving subsequence of all
      restaurants holding exactly the ones that match every active criterion. */
  lemma ApplySelectsMatches(all: seq<Restaurant>, c: Criteria)
    ensures IsSubsequence(Apply(all, c), all)
    ensures |Apply(all, c)| <= |all|
    ensures forall r :: r in Apply(all, c) <==> r in all && Matches(c, r)
  {
    ApplyIsFilterByMatches(all, c);
  }

  /** A search text `narrow` that contains the search text `wide`, once both
      are trimmed and folded, so every field matching it matches `wide`. */
  predicate TextNarrows(narrow: string, wide: string) {
    TextActive(narrow) && Contains(ToLower(Trim(narrow)), ToLower(Trim(wide)))
  }

  /** `narrow` keeps every criterion `wide` has active, or tightens it: a
      longer search text containing the old one, or a higher minimum rating;
      it may also activate more criteria. */
  predicate Narrows(narrow: Criteria, wide: Criteria) {
    && (TextActive(wide.style) ==> TextNarrows(narrow.style, wide.style))
    && (wide.price.Some? ==> narrow.price == wide.price)
    && (wide.delivery.Some? ==> narrow.delivery == wide.delivery)
    && (TextActive(wide.area) ==> TextNarrows(narrow.area, wide.area))
    && (wide.minRating.Some? ==> narrow.minRating.Some? && narrow.minRating.value >= wide.minRating.value)
  }

  lemma NarrowerMatchesLess(narrow: Criteria, wide: Criteria, r: Restaurant)
    requires Narrows(narrow, wide)
    ensures Matches(narrow, r) ==> Matches(wide, r)
  {
    if Matches(narrow, r) {
      if TextActive(wide.style) {
        ContainsTransitive(ToLower(r.style), ToLower(Trim(narrow.style)), ToLower(Trim(wide.style)));
      }
      if TextActive(wide.area) {
        ContainsTransitive(ToLower(r.area), ToLower(Trim(narrow.area)), ToLower(Trim(wide.area)));
      }
    }
  }

  /** Raising the minimum rating, with every other criterion kept, narrows
      the filter. */
  lemma RaisingMinimumNarrows(c: Criteria, low: Rating, high: Rating)
    requires low <= high
    ensures Narrows(c.(minRating := Some(high)), c.(minRating := Some(low)))
  {
    ContainsReflexive(ToLower(Trim(c.style)));
    ContainsReflexive(ToLower(Trim(c.area)));
  }

  /** Adding or tightening criteria never enlarges the result: the narrower
      result is a subsequence of the wider one. */
  lemma NarrowingShrinks(all: seq<Restaurant>, narrow: Criteria, wide: Criteria)
    requires Narrows(narrow, wide)
    ensures IsSubsequence(Apply(all, narrow), Apply(all, wide))
    ensures |Apply(all, narrow)| <= |Apply(all, wide)|
  {
    ApplyIsFilterByMatches(all, narrow);
    ApplyIsFilterByMatches(all, wide);
    forall r: Restaurant
      ensures MatchTest(narrow)(r) ==> MatchTest(wide)(r)
    {
      NarrowerMatchesLess(narrow, wide, r);
    }
    FilterMonotone(all, MatchTest(wide), MatchTest(narrow));
    SubsequenceLength(Apply(all, narrow), Apply(all, wide));
  }

  /** With every criterion at its default the filter keeps the full list,
      which is what the reset handler shows. */
  lemma AnyCriteriaKeepsAll(all: seq<Restaurant>)
    ensures Apply(all, AnyCriteria) == all
  {
    ApplyIsFilterByMatches(all, AnyCriteria);
    DefaultsMatchEverything();
    FilterKeepsAll(all, MatchTest(AnyCriteria));
  }

  /** No default criterion is active, so every restaurant matches them. */
  lemma DefaultsMatchEverything()
    ensures forall r :: MatchTest(AnyCriteria)(r)
  {
    var c := AnyCriteria;
    forall r: Restaurant
      ensures MatchTest(c)(r)
    {
      assert StyleOk(c, r) && PriceOk(c, r) && DeliveryOk(c, r) && AreaOk(c, r) && RatingOk(c, r);
    }
  }

  /** Minimum rating 4 over ratings 3, 4, 5 keeps the last two, in order. */
  lemma MinimumRatingExample()
    ensures
      var a := Restaurant("a", "A", "Thai", Price1, false, "Downtown", 3);
      var b := Restaurant("b", "B", "Thai", Price1, false, "Downtown", 4);
      var d := Restaurant("d", "D", "Thai", Price1, false, "Downtown", 5);
      Apply([a, b, d], AnyCriteria.(minRating := Some(4))) == [b, d]
  {
    var a := Restaurant("a", "A", "Thai", Price1, false, "Downtown", 3);
    var b := Restaurant("b", "B", "Thai", Price1, false, "Downtown", 4);
    var d := Restaurant("d", "D", "Thai", Price1, false, "Downtown", 5);
    var c := AnyCriteria.(minRating := Some(4));
    var all := [a, b, d];
    assert !TextActive("");
    assert StylePass(all, c) == all;
    assert PricePass(all, c) == all;
    assert DeliveryPass(all, c) == all;
    assert AreaPass(all, c) == all;
    var t := RatingTest(c);
    assert all[1..] == [b, d] && [b, d][1..] == [d] && [d][1..] == [];
    assert !t(a) && t(b) && t(d);
    assert Filter([d], t) == [d];
    assert Filter([b, d], t) == [b, d];
    assert Filter(all, t) == [b, d];
  }
}
