/** The reviews collection (models/Review.js): one review per (placeId,
    userId), a per-review like counter, the per-place listing and the rating
    summary aggregation. */
module ReviewModel {
  import opened Common
  import opened Listing
  import opened PlaceModel

  datatype Review = Review(
    id: Oid,
    placeId: string,
    userId: Oid,
    rating: int,
    text: string,
    likesCount: int,
    createdAt: int,
    updatedAt: int)

  /** The fields an `updateReview` call may `$set`; None leaves one alone. */
  datatype ReviewPatch = ReviewPatch(rating: Option<int>, text: Option<string>)

  /** Ids below the counter, and the unique index (placeId, userId). */
  ghost predicate ReviewsValid(t: Table<Oid, Review>) {
    && (forall id :: id in t.rows ==> t.rows[id].id == id && id.n < t.nextId)
    && (forall a, b ::
          (a in t.rows && b in t.rows && t.rows[a].placeId == t.rows[b].placeId &&
           t.rows[a].userId == t.rows[b].userId) ==> a == b)
  }

  predicate HasReview(rows: map<Oid, Review>, userId: Oid, placeId: string) {
    exists id :: id in rows && rows[id].userId == userId && rows[id].placeId == placeId
  }

  /** The record `createReview` inserts: no likes yet, text '' when none. */
  function NewReviewRecord(id: Oid, placeId: string, userId: Oid, rating: int, text: Option<string>, now: int): (r: Review)
    ensures r.likesCount == 0 && r.placeId == placeId && r.userId == userId && r.rating == rating
    ensures text.None? ==> r.text == ""
  {
    Review(id, placeId, userId, rating, if text.Some? then text.value else "", 0, now, now)
  }

  /** `createReview`: `insertOne`, refused by the unique index. */
  function InsertReview(t: Table<Oid, Review>, placeId: string, userId: Oid, rating: int, text: Option<string>, now: int)
    : (Inserted<Review>, Table<Oid, Review>)
  {
    if HasReview(t.rows, userId, placeId) then (DuplicateKey, t)
    else
      var r := NewReviewRecord(t.Fresh(), placeId, userId, rating, text, now);
      (Inserted(r), Table(t.rows[r.id := r], t.nextId + 1))
  }

  /** `updateReview`: `findOneAndUpdate` with `$set` of the supplied fields. */
  function PatchReview(t: Table<Oid, Review>, id: Oid, p: ReviewPatch, now: int): (Option<Review>, Table<Oid, Review>) {
    if id in t.rows then
      var r := t.rows[id].(rating := p.rating.GetOr(t.rows[id].rating), text := p.text.GetOr(t.rows[id].text), updatedAt := now);
      (Some(r), t.(rows := t.rows[id := r]))
    else (None, t)
  }

  /** `deleteReview`: `deleteOne`, true iff a record was removed. */
  function RemoveReview(t: Table<Oid, Review>, id: Oid): (bool, Table<Oid, Review>) {
    (id in t.rows, t.(rows := t.rows - {id}))
  }

  /** `updateReviewCounts(id, 'likesCount', increment)`. */
  function AddToLikes(t: Table<Oid, Review>, id: Oid, increment: int, now: int): Table<Oid, Review> {
    if id in t.rows then t.(rows := t.rows[id := t.rows[id].(likesCount := t.rows[id].likesCount + increment, updatedAt := now)])
    else t
  }

  /** A create adds one fresh record unless the (place, user) pair already
      has a review, in which case nothing changes; the index stays unique. */
  lemma {:induction false} InsertReviewSpec(t: Table<Oid, Review>, placeId: string, userId: Oid, rating: int,
                                            text: Option<string>, now: int)
    requires ReviewsValid(t)
    ensures var (r, t') := InsertReview(t, placeId, userId, rating, text, now);
      && ReviewsValid(t')
      && (r.Inserted? <==> !HasReview(t.rows, userId, placeId))
      && (r.Inserted? ==> r.value.id !in t.rows && t'.rows == t.rows[r.value.id := r.value])
      && (r.DuplicateKey? ==> t' == t)
  {
    var (r, t') := InsertReview(t, placeId, userId, rating, text, now);
    if r.Inserted? {
      var fresh_id := t.Fresh();
      forall a, b | a in t'.rows && b in t'.rows && t'.rows[a].placeId == t'.rows[b].placeId &&
          t'.rows[a].userId == t'.rows[b].userId
        ensures a == b
      {
        if a != b && (a == fresh_id || b == fresh_id) {
          assert false;
        }
      }
    }
  }

  /** An update sets only the supplied fields (and updatedAt), leaves every
      other review alone and keeps the table valid. */
  lemma {:induction false} PatchReviewSpec(t: Table<Oid, Review>, id: Oid, p: ReviewPatch, now: int)
    requires ReviewsValid(t)
    ensures var (r, t') := PatchReview(t, id, p, now);
      && ReviewsValid(t')
      && (r.Some? <==> id in t.rows)
      && (r.Some? ==> r.value == t'.rows[id] &&
                      (p.rating.Some? ==> r.value.rating == p.rating.value) &&
                      (p.rating.None? ==> r.value.rating == t.rows[id].rating) &&
                      (p.text.Some? ==> r.value.text == p.text.value) &&
                      (p.text.None? ==> r.value.text == t.rows[id].text) &&
                      r.value.(rating := t.rows[id].rating, text := t.rows[id].text, updatedAt := t.rows[id].updatedAt) == t.rows[id])
      && (forall o :: o in t.rows && o != id ==> o in t'.rows && t'.rows[o] == t.rows[o])
  {
    var (r, t') := PatchReview(t, id, p, now);
    if id in t.rows {
      forall a | a in t'.rows ensures t'.rows[a].placeId == t.rows[a].placeId && t'.rows[a].userId == t.rows[a].userId { }
    }
  }

  /** A delete removes exactly that id and keeps the table valid. */
  lemma {:induction false} RemoveReviewSpec(t: Table<Oid, Review>, id: Oid)
    requires ReviewsValid(t)
    ensures var (deleted, t') := RemoveReview(t, id);
      && ReviewsValid(t') && (deleted <==> id in t.rows) && id !in t'.rows
      && (forall o :: o in t.rows && o != id ==> o in t'.rows && t'.rows[o] == t.rows[o])
  {
  }

  /** A count update moves likesCount by the increment, changes nothing else
      but updatedAt, and keeps the table valid. */
  lemma {:induction false} AddToLikesSpec(t: Table<Oid, Review>, id: Oid, increment: int, now: int)
    requires ReviewsValid(t)
    ensures var t' := AddToLikes(t, id, increment, now);
      && ReviewsValid(t') && t'.rows.Keys == t.rows.Keys
      && (id in t.rows ==> t'.rows[id].likesCount == t.rows[id].likesCount + increment &&
                           t'.rows[id].(likesCount := t.rows[id].likesCount, updatedAt := t.rows[id].updatedAt) == t.rows[id])
  {
    var t2 := AddToLikes(t, id, increment, now);
    if id in t.rows {
      forall a | a in t2.rows ensures t2.rows[a].placeId == t.rows[a].placeId && t2.rows[a].userId == t.rows[a].userId { }
    }
  }

  // ---------------------------------------------------------------------------
  // getPlaceRatingSummary

  /** The ids of the reviews of one place. */
  function OfPlace(rows: map<Oid, Review>, placeId: string): set<Oid> {
    set id | id in rows.Keys && rows[id].placeId == placeId
  }

  /** The sum of the ratings of the reviews `ids`. */
  ghost function RatingSum(rows: map<Oid, Review>, ids: set<Oid>): int
    requires ids <= rows.Keys
    decreases |ids|
  {
    if ids == {} then 0
    else
      var id :| id in ids;
      rows[id].rating + RatingSum(rows, ids - {id})
  }

  /** The sum does not depend on which review is taken out first. */
  lemma {:induction false} RatingSumTakeAny(rows: map<Oid, Review>, ids: set<Oid>, x: Oid)
    requires ids <= rows.Keys && x in ids
    ensures RatingSum(rows, ids) == rows[x].rating + RatingSum(rows, ids - {x})
    decreases |ids|
  {
    var y :| y in ids && RatingSum(rows, ids) == rows[y].rating + RatingSum(rows, ids - {y});
    if y != x {
      RatingSumTakeAny(rows, ids - {y}, x);
      RatingSumTakeAny(rows, ids - {x}, y);
      assert ids - {y} - {x} == ids - {x} - {y};
    }
  }

  /** With every rating between 1 and 5, the sum lies between the count and
      five times the count. */
  lemma {:induction false} RatingSumBounds(rows: map<Oid, Review>, ids: set<Oid>)
    requires ids <= rows.Keys
    requires forall id :: id in ids ==> 1 <= rows[id].rating <= 5
    ensures |ids| <= RatingSum(rows, ids) <= 5 * |ids|
    decreases |ids|
  {
    if ids != {} {
      var id :| id in ids && RatingSum(rows, ids) == rows[id].rating + RatingSum(rows, ids - {id});
      RatingSumBounds(rows, ids - {id});
    }
  }

  /** `Math.round(avg * 10)`, for an average of `sum / count`: the nearest
      integer to 10 * sum / count, halves rounded up. */
  function RoundedTenths(sum: int, count: nat): int
    requires count > 0
  {
    (20 * sum + count) / (2 * count)
  }

  /** `getPlaceRatingSummary`: {0, 0} for a place without reviews, otherwise
      the rounded average and the number of the place's reviews. */
  ghost function RatingSummaryOf(rows: map<Oid, Review>, placeId: string): (r: RatingSummary)
    ensures r.count == |OfPlace(rows, placeId)|
    ensures r.count == 0 ==> r.avgTenths == 0
  {
    var ids := OfPlace(rows, placeId);
    if |ids| == 0 then RatingSummary(0, 0)
    else RatingSummary(RoundedTenths(RatingSum(rows, ids), |ids|), |ids|)
  }

  /** The rounding lands within the rating scale: an average of ratings in
      1..5 is shown between 1.0 and 5.0. */
  lemma {:induction false} RoundedTenthsInScale(sum: int, count: nat)
    requires count > 0 && count <= sum <= 5 * count
    ensures 10 <= RoundedTenths(sum, count) <= 50
  {
    var d := 2 * count;
    var n := 20 * sum + count;
    var q := n / d;
    assert n == q * d + n % d && 0 <= n % d < d;
    assert 10 * d <= n < 51 * d;
    if q < 10 {
      MulLe(q, 9, d);
      assert false;
    }
    if q > 50 {
      MulLe(51, q, d);
      assert false;
    }
  }

  lemma MulLe(a: int, b: int, c: int)
    requires a <= b && c >= 0
    ensures a * c <= b * c
  {
    assert b * c - a * c == (b - a) * c;
  }

  lemma {:induction false} RatingSummaryInScale(rows: map<Oid, Review>, placeId: string)
    requires forall id :: id in rows ==> 1 <= rows[id].rating <= 5
    ensures var s := RatingSummaryOf(rows, placeId);
      s.count > 0 ==> 10 <= s.avgTenths <= 50
  {
    var ids := OfPlace(rows, placeId);
    if |ids| > 0 {
      RatingSumBounds(rows, ids);
      RoundedTenthsInScale(RatingSum(rows, ids), |ids|);
    }
  }

  /** The sum depends only on the ratings of the summed reviews. */
  lemma {:induction false} RatingSumCongruent(r1: map<Oid, Review>, r2: map<Oid, Review>, ids: set<Oid>)
    requires ids <= r1.Keys && ids <= r2.Keys
    requires forall id :: id in ids ==> r1[id].rating == r2[id].rating
    ensures RatingSum(r1, ids) == RatingSum(r2, ids)
    decreases |ids|
  {
    if ids != {} {
      var x :| x in ids;
      RatingSumTakeAny(r1, ids, x);
      RatingSumTakeAny(r2, ids, x);
      RatingSumCongruent(r1, r2, ids - {x});
    }
  }

  /** A place's summary depends only on that place's reviews and their
      ratings: a change to the reviews of other places leaves it alone. */
  lemma {:induction false} RatingSummaryOfPlaceOnly(r1: map<Oid, Review>, r2: map<Oid, Review>, placeId: string)
    requires forall id :: id in r1 && r1[id].placeId == placeId ==> id in r2 && r2[id].placeId == placeId && r2[id].rating == r1[id].rating
    requires forall id :: id in r2 && r2[id].placeId == placeId ==> id in r1 && r1[id].placeId == placeId
    ensures RatingSummaryOf(r1, placeId) == RatingSummaryOf(r2, placeId)
  {
    assert OfPlace(r1, placeId) == OfPlace(r2, placeId);
    RatingSumCongruent(r1, r2, OfPlace(r1, placeId));
  }

  /** A new review of a place adds one to its count and its rating to its
      sum. */
  lemma {:induction false} RatingSumAfterInsert(rows: map<Oid, Review>, r: Review)
    requires r.id !in rows
    ensures OfPlace(rows[r.id := r], r.placeId) == OfPlace(rows, r.placeId) + {r.id}
    ensures RatingSum(rows[r.id := r], OfPlace(rows[r.id := r], r.placeId)) == RatingSum(rows, OfPlace(rows, r.placeId)) + r.rating
  {
    var rows' := rows[r.id := r];
    var ids' := OfPlace(rows', r.placeId);
    assert ids' == OfPlace(rows, r.placeId) + {r.id};
    RatingSumTakeAny(rows', ids', r.id);
    assert ids' - {r.id} == OfPlace(rows, r.placeId);
    RatingSumCongruent(rows', rows, OfPlace(rows, r.placeId));
  }

  /** The reviews of one place. */
  ghost function ReviewsOfPlace(rows: map<Oid, Review>, placeId: string): set<Review> {
    set v | v in rows.Values && v.placeId == placeId
  }

  /** `findReviewsByPlaceId`: the reviews of one place, newest first, page
      and limit defaulting to 1 and 20. None is the store refusing a negative
      skip. */
  ghost function FindReviewsByPlaceId(rows: map<Oid, Review>, placeId: string, page: Option<int>, limit: Option<int>)
    : (r: Option<seq<Review>>)
    ensures r.None? <==> Skip(PageParam(page, 1), PageParam(limit, 20)) < 0
    ensures r.Some? ==> SortedDesc(r.value, (v: Review) => v.createdAt)
    ensures r.Some? ==> forall i :: 0 <= i < |r.value| ==> r.value[i] in rows.Values && r.value[i].placeId == placeId
    ensures r.Some? && PageParam(limit, 20) > 0 ==> |r.value| <= PageParam(limit, 20)
    ensures r.Some? ==> r.value == Window(Ordered(ReviewsOfPlace(rows, placeId), (v: Review) => v.createdAt),
                                          Skip(PageParam(page, 1), PageParam(limit, 20)), PageParam(limit, 20)).value
  {
    var p := PageParam(page, 1);
    var l := PageParam(limit, 20);
    var mine := ReviewsOfPlace(rows, placeId);
    if Skip(p, l) < 0 then None
    else
      var key := (v: Review) => v.createdAt;
      var w := Window(Ordered(mine, key), Skip(p, l), l).value;
      PageOfOrdered(mine, key, Skip(p, l), l);
      assert forall i :: 0 <= i < |w| ==> w[i] in mine;
      Some(w)
  }

  /** With a positive limit every review of the place is listed, on exactly
      one page. */
  lemma FindReviewsListsEachOnce(rows: map<Oid, Review>, placeId: string, limit: int, x: Review, q: int)
    requires limit >= 1
    requires x in rows.Values && x.placeId == placeId
    requires q >= 1
    ensures FindReviewsByPlaceId(rows, placeId, Some(q), Some(limit)).Some?
    ensures x in FindReviewsByPlaceId(rows, placeId, Some(q), Some(limit)).value
      <==> q == PageNumber(Ordered(ReviewsOfPlace(rows, placeId), (v: Review) => v.createdAt), limit, x)
  {
    assert PageParam(Some(q), 1) == q && PageParam(Some(limit), 20) == limit;
    MulMono(0, q - 1, limit);
    PageHoldsOnce(ReviewsOfPlace(rows, placeId), (v: Review) => v.createdAt, limit, q, x, FindReviewsByPlaceId(rows, placeId, Some(q), Some(limit)).value);
  }

  class ReviewTable {
    var rows: map<Oid, Review>
    var nextId: nat

    function Snap(): Table<Oid, Review>
      reads this
    {
      Table(rows, nextId)
    }

    ghost predicate Valid()
      reads this
    {
      ReviewsValid(Snap())
    }

    constructor ()
      ensures Valid() && rows == map[] && nextId == 0
    {
      rows := map[];
      nextId := 0;
    }

    method CreateReview(placeId: string, userId: Oid, rating: int, text: Option<string>, now: int) returns (r: Inserted<Review>)
      requires Valid()
      modifies this
      ensures Valid()
      ensures (r, Snap()) == InsertReview(old(Snap()), placeId, userId, rating, text, now)
    {
      InsertReviewSpec(Snap(), placeId, userId, rating, text, now);
      if HasReview(rows, userId, placeId) {
        return DuplicateKey;
      }
      var q := NewReviewRecord(Oid(nextId), placeId, userId, rating, text, now);
      rows := rows[q.id := q];
      nextId := nextId + 1;
      r := Inserted(q);
    }

    function FindReviewById(id: Oid): (r: Option<Review>)
      reads this
      requires Valid()
      ensures r.Some? <==> id in rows
      ensures r.Some? ==> r.value == rows[id] && r.value.id == id
    {
      if id in rows then Some(rows[id]) else None
    }

    /** `findReviewByUserAndPlace`: the one review of the pair, if any. */
    method FindReviewByUserAndPlace(userId: Oid, placeId: string) returns (r: Option<Review>)
      requires Valid()
      ensures r.Some? <==> HasReview(rows, userId, placeId)
      ensures r.Some? ==> r.value in rows.Values && r.value.userId == userId && r.value.placeId == placeId
    {
      if !HasReview(rows, userId, placeId) {
        return None;
      }
      var id :| id in rows && rows[id].userId == userId && rows[id].placeId == placeId;
      r := Some(rows[id]);
    }

    method UpdateReview(id: Oid, p: ReviewPatch, now: int) returns (r: Option<Review>)
      requires Valid()
      modifies this
      ensures Valid()
      ensures (r, Snap()) == PatchReview(old(Snap()), id, p, now)
    {
      PatchReviewSpec(Snap(), id, p, now);
      if id in rows {
        var q := rows[id].(updatedAt := now);
        if p.rating.Some? {
          q := q.(rating := p.rating.value);
        }
        if p.text.Some? {
          q := q.(text := p.text.value);
        }
        rows := rows[id := q];
        r := Some(q);
      } else {
        r := None;
      }
    }

    method DeleteReview(id: Oid) returns (deleted: bool)
      requires Valid()
      modifies this
      ensures Valid()
      ensures (deleted, Snap()) == RemoveReview(old(Snap()), id)
    {
      deleted := id in rows;
      rows := rows - {id};
    }

    method UpdateReviewCounts(id: Oid, increment: int, now: int)
      requires Valid()
      modifies this
      ensures Valid()
      ensures Snap() == AddToLikes(old(Snap()), id, increment, now)
    {
      if id in rows {
        rows := rows[id := rows[id].(likesCount := rows[id].likesCount + increment, updatedAt := now)];
      }
    }

    /** `getPlaceRatingSummary`: the `$group` over the place's reviews, summing
        ratings and counting them one review at a time. */
    method GetPlaceRatingSummary(placeId: string) returns (s: RatingSummary)
      requires Valid()
      ensures s == RatingSummaryOf(rows, placeId)
    {
      var todo := OfPlace(rows, placeId);
      ghost var all := todo;
      var sum := 0;
      var count := 0;
      while todo != {}
        invariant todo <= all <= rows.Keys
        invariant count + |todo| == |all|
        invariant sum + RatingSum(rows, todo) == RatingSum(rows, all)
        decreases |todo|
      {
        var id :| id in todo;
        RatingSumTakeAny(rows, todo, id);
        sum := sum + rows[id].rating;
        count := count + 1;
        todo := todo - {id};
      }
      if count == 0 {
        s := RatingSummary(0, 0);
      } else {
        s := RatingSummary((20 * sum + count) / (2 * count), count);
      }
    }
  }
}
