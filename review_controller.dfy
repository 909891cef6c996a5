/** The review handlers (controllers/reviewController.js): the per-place
    listing with the rating summary, create/update/delete of one's own
    review (each recomputing the place's rating summary), and like/unlike of
    a review.

    The invariant they keep together, `ReviewStoresValid`, ties the
    denormalised numbers to the records they summarise: each place's rating
    summary to its reviews, each review's likesCount to its like records, and
    each user's reviewsCount to their reviews. */
module ReviewController {
  import opened Common
  import opened Listing
  import opened ReviewModel
  import PM = PlaceModel
  import E = EdgeModel
  import U = UserModel

  const PlaceNotFound := Fail(404, "PLACE_NOT_FOUND")
  const ReviewExists := Fail(409, "REVIEW_EXISTS")
  const ReviewNotFound := Fail(404, "REVIEW_NOT_FOUND")
  const Forbidden := Fail(403, "FORBIDDEN")
  const AlreadyLiked := Fail(409, "ALREADY_LIKED")
  const LikeNotFound := Fail(404, "LIKE_NOT_FOUND")

  /** The caller's like record of a review. */
  function ReviewLike(me: Oid, reviewId: Oid): E.EdgeKey {
    E.EdgeKey(me, E.ReviewType, E.ObjectKey(reviewId))
  }

  // ---------------------------------------------------------------------------
  // The steps

  /** `createReview`: the place must exist and the caller must not have
      reviewed it; the review is inserted, the place's rating summary
      recomputed and the caller's reviewsCount raised. */
  ghost function CreateReviewStep(places: Table<string, PM.Place>, reviews: Table<Oid, Review>, users: Table<Oid, U.User>,
                            me: Oid, placeId: string, rating: int, text: Option<string>, now: int)
    : (Outcome, Option<Review>, Table<string, PM.Place>, Table<Oid, Review>, Table<Oid, U.User>)
  {
    if placeId !in places.rows then (PlaceNotFound, None, places, reviews, users)
    else if HasReview(reviews.rows, me, placeId) then (ReviewExists, None, places, reviews, users)
    else
      var (ins, reviews') := InsertReview(reviews, placeId, me, rating, text, now);
      if ins.DuplicateKey? then (DuplicateKeyReply, None, places, reviews, users)
      else
        var places' := PM.SetRating(places, placeId, RatingSummaryOf(reviews'.rows, placeId), now);
        (Ok(201), Some(ins.value), places', reviews', U.IncrementStat(users, me, U.ReviewsCount, 1, now))
  }

  /** `updateReview`: only the author may change a review; the supplied
      fields are set and the place's rating summary recomputed. */
  ghost function UpdateReviewStep(places: Table<string, PM.Place>, reviews: Table<Oid, Review>,
                            me: Oid, reviewId: Oid, patch: ReviewPatch, now: int)
    : (Outcome, Option<Review>, Table<string, PM.Place>, Table<Oid, Review>)
  {
    if reviewId !in reviews.rows then (ReviewNotFound, None, places, reviews)
    else if reviews.rows[reviewId].userId != me then (Forbidden, None, places, reviews)
    else
      var placeId := reviews.rows[reviewId].placeId;
      var (r, reviews') := PatchReview(reviews, reviewId, patch, now);
      (Ok(200), r, PM.SetRating(places, placeId, RatingSummaryOf(reviews'.rows, placeId), now), reviews')
  }

  /** `deleteReview`: only the author may delete a review; the place's rating
      summary is recomputed and the caller's reviewsCount lowered. The
      review's like records are left in place. */
  ghost function DeleteReviewStep(places: Table<string, PM.Place>, reviews: Table<Oid, Review>, users: Table<Oid, U.User>,
                            me: Oid, reviewId: Oid, now: int)
    : (Outcome, Table<string, PM.Place>, Table<Oid, Review>, Table<Oid, U.User>)
  {
    if reviewId !in reviews.rows then (ReviewNotFound, places, reviews, users)
    else if reviews.rows[reviewId].userId != me then (Forbidden, places, reviews, users)
    else
      var placeId := reviews.rows[reviewId].placeId;
      var (_, reviews') := RemoveReview(reviews, reviewId);
      (Ok(200), PM.SetRating(places, placeId, RatingSummaryOf(reviews'.rows, placeId), now), reviews',
       U.IncrementStat(users, me, U.ReviewsCount, -1, now))
  }

  /** `likeReview`: the review must exist and the caller's like must not. */
  function LikeReviewStep(reviews: Table<Oid, Review>, likes: map<E.EdgeKey, E.Edge>, me: Oid, reviewId: Oid, now: int)
    : (Outcome, Table<Oid, Review>, map<E.EdgeKey, E.Edge>)
  {
    if reviewId !in reviews.rows then (ReviewNotFound, reviews, likes)
    else if ReviewLike(me, reviewId) in likes then (AlreadyLiked, reviews, likes)
    else
      var (ins, likes') := E.InsertEdge(likes, ReviewLike(me, reviewId), now);
      if ins.DuplicateKey? then (DuplicateKeyReply, reviews, likes)
      else (Ok(200), AddToLikes(reviews, reviewId, 1, now), likes')
  }

  /** `unlikeReview`: delete the caller's like; the review is not looked up,
      and its counter is lowered only if it still exists. */
  function UnlikeReviewStep(reviews: Table<Oid, Review>, likes: map<E.EdgeKey, E.Edge>, me: Oid, reviewId: Oid, now: int)
    : (Outcome, Table<Oid, Review>, map<E.EdgeKey, E.Edge>)
  {
    var (deleted, likes') := E.RemoveEdge(likes, ReviewLike(me, reviewId));
    if !deleted then (LikeNotFound, reviews, likes)
    else (Ok(200), AddToLikes(reviews, reviewId, -1, now), likes')
  }

  // ---------------------------------------------------------------------------
  // The listing

  /** A listed review: a few of its fields and its author's summary, or None
      when the author no longer exists. */
  datatype ReviewItem = ReviewItem(id: Oid, rating: int, text: string, likesCount: int, createdAt: int,
                                   user: Option<U.UserSummary>)

  function ItemOf(r: Review, users: map<Oid, U.User>): ReviewItem {
    ReviewItem(r.id, r.rating, r.text, r.likesCount, r.createdAt,
               if r.userId in users then Some(U.Summary(users[r.userId])) else None)
  }

  datatype PlaceReviews = PlaceReviews(summary: PM.RatingSummary, reviews: seq<ReviewItem>)

  /** `getPlaceReviews`: 404 for a missing place, else its summary and one
      page of its reviews (page and limit defaulting to 1 and 20). */
  ghost function GetPlaceReviews(places: map<string, PM.Place>, reviews: map<Oid, Review>, users: map<Oid, U.User>,
                                 placeId: string, page: Option<int>, limit: Option<int>): (Outcome, Option<PlaceReviews>)
  {
    if placeId !in places then (PlaceNotFound, None)
    else
      var found := FindReviewsByPlaceId(reviews, placeId, page, limit);
      if found.None? then (NegativeSkipReply, None)
      else
        var rs := found.value;
        (Ok(200), Some(PlaceReviews(RatingSummaryOf(reviews, placeId),
                                    seq(|rs|, i requires 0 <= i < |rs| => ItemOf(rs[i], users)))))
  }

  /** The listing answers 404 exactly for a missing place and the store's
      refusal exactly for a negative skip; otherwise it carries the place's
      summary and the `findReviewsByPlaceId` page (newest first, reviews of
      that place), each review with its author's public summary when the
      author exists. */
  lemma {:induction false} GetPlaceReviewsSpec(places: map<string, PM.Place>, reviews: map<Oid, Review>,
                                               users: map<Oid, U.User>, placeId: string, page: Option<int>, limit: Option<int>)
    ensures var (o, r) := GetPlaceReviews(places, reviews, users, placeId, page, limit);
      && (o == PlaceNotFound <==> placeId !in places)
      && (o.Ok? <==> r.Some?)
      && (o.Ok? <==> placeId in places && Skip(PageParam(page, 1), PageParam(limit, 20)) >= 0)
      && (o == NegativeSkipReply <==> placeId in places && Skip(PageParam(page, 1), PageParam(limit, 20)) < 0)
      && (r.Some? ==>
            && r.value.summary == RatingSummaryOf(reviews, placeId)
            && |r.value.reviews| == |FindReviewsByPlaceId(reviews, placeId, page, limit).value|
            && (forall i :: 0 <= i < |r.value.reviews| ==>
                  r.value.reviews[i] == ItemOf(FindReviewsByPlaceId(reviews, placeId, page, limit).value[i], users))
            && (PageParam(limit, 20) > 0 ==> |r.value.reviews| <= PageParam(limit, 20))
            && (forall i, j :: 0 <= i < j < |r.value.reviews| ==> r.value.reviews[i].createdAt >= r.value.reviews[j].createdAt)
            && (forall i :: 0 <= i < |r.value.reviews| ==>
                  exists id :: id in reviews && reviews[id].placeId == placeId && ItemOf(reviews[id], users) == r.value.reviews[i]))
  {
    var (o, r) := GetPlaceReviews(places, reviews, users, placeId, page, limit);
    if r.Some? {
      var rs := FindReviewsByPlaceId(reviews, placeId, page, limit).value;
      forall i, j | 0 <= i < j < |rs| ensures rs[i].createdAt >= rs[j].createdAt {
        assert ((v: Review) => v.createdAt)(rs[i]) >= ((v: Review) => v.createdAt)(rs[j]);
      }
      forall i | 0 <= i < |rs|
        ensures exists id :: id in reviews && reviews[id].placeId == placeId && ItemOf(reviews[id], users) == ItemOf(rs[i], users)
      {
        var id :| id in reviews && reviews[id] == rs[i];
      }
    }
  }

  // ---------------------------------------------------------------------------
  // The invariant

  /** Every place's rating summary is the one its reviews give. */
  ghost predicate RatingsMatch(places: map<string, PM.Place>, reviews: map<Oid, Review>) {
    forall placeId :: placeId in places ==> places[placeId].ratingSummary == RatingSummaryOf(reviews, placeId)
  }

  /** Every review's likesCount is the number of like records pointing at it. */
  ghost predicate LikesMatch(reviews: map<Oid, Review>, likes: map<E.EdgeKey, E.Edge>) {
    forall id :: id in reviews ==> reviews[id].likesCount == E.CountTo(likes, E.ReviewType, E.ObjectKey(id))
  }

  /** Like records of reviews point at ids already handed out, so a new
      review starts without likes. */
  ghost predicate LikesBelow(nextId: nat, likes: map<E.EdgeKey, E.Edge>) {
    forall k :: k in likes && k.targetType == E.ReviewType ==> k.targetId.ObjectKey? && k.targetId.oid.n < nextId
  }

  /** The reviews written by one user. */
  function ReviewsBy(reviews: map<Oid, Review>, userId: Oid): set<Oid> {
    set id | id in reviews && reviews[id].userId == userId
  }

  /** Every user's reviewsCount is the number of their reviews. */
  ghost predicate CountsMatch(users: map<Oid, U.User>, reviews: map<Oid, Review>) {
    forall u :: u in users ==> users[u].stats.reviewsCount == |ReviewsBy(reviews, u)|
  }

  ghost predicate ReviewStoresValid(places: Table<string, PM.Place>, reviews: Table<Oid, Review>, users: Table<Oid, U.User>,
                                    likes: map<E.EdgeKey, E.Edge>) {
    && ReviewsValid(reviews)
    && RatingsMatch(places.rows, reviews.rows)
    && LikesMatch(reviews.rows, likes)
    && LikesBelow(reviews.nextId, likes)
    && CountsMatch(users.rows, reviews.rows)
  }

  /** Setting one place's summary to the one its new reviews give keeps every
      summary matched, provided the reviews of every other place are as
      before. */
  lemma {:induction false} RatingsAfterRewrite(places: Table<string, PM.Place>, r1: map<Oid, Review>, r2: map<Oid, Review>,
                                               placeId: string, now: int)
    requires RatingsMatch(places.rows, r1)
    requires forall id :: id in r1 && r1[id].placeId != placeId ==>
      id in r2 && r2[id].placeId == r1[id].placeId && r2[id].rating == r1[id].rating
    requires forall id :: id in r2 && r2[id].placeId != placeId ==> id in r1 && r1[id].placeId == r2[id].placeId
    ensures RatingsMatch(PM.SetRating(places, placeId, RatingSummaryOf(r2, placeId), now).rows, r2)
  {
    var places' := PM.SetRating(places, placeId, RatingSummaryOf(r2, placeId), now);
    forall q | q in places'.rows ensures places'.rows[q].ratingSummary == RatingSummaryOf(r2, q) {
      if q != placeId {
        RatingSummaryOfPlaceOnly(r1, r2, q);
      }
    }
  }

  /** Moving one user's reviewsCount by `delta` while their reviews change by
      as many, and nobody else's, keeps every count matched. */
  lemma {:induction false} CountsAfterMove(users: Table<Oid, U.User>, r1: map<Oid, Review>, r2: map<Oid, Review>,
                                           me: Oid, delta: int, now: int)
    requires CountsMatch(users.rows, r1)
    requires |ReviewsBy(r2, me)| == |ReviewsBy(r1, me)| + delta
    requires forall u :: u != me ==> ReviewsBy(r2, u) == ReviewsBy(r1, u)
    ensures CountsMatch(U.IncrementStat(users, me, U.ReviewsCount, delta, now).rows, r2)
  {
    var users' := U.IncrementStat(users, me, U.ReviewsCount, delta, now);
    forall u | u in users'.rows ensures users'.rows[u].stats.reviewsCount == |ReviewsBy(r2, u)| {
      if u == me {
        U.AddToStatMovesOneCounter(users.rows[u].stats, U.ReviewsCount, delta, U.ReviewsCount);
      }
    }
  }

  /** A new review keeps the likes matched: it starts with none. */
  lemma {:induction false} InsertedReviewKeepsLikes(reviews: Table<Oid, Review>, reviews': Table<Oid, Review>,
                                                    likes: map<E.EdgeKey, E.Edge>, n: Review)
    requires LikesMatch(reviews.rows, likes) && LikesBelow(reviews.nextId, likes)
    requires n.id == reviews.Fresh() && n.likesCount == 0
    requires reviews'.rows == reviews.rows[n.id := n] && reviews'.nextId == reviews.nextId + 1
    ensures LikesMatch(reviews'.rows, likes) && LikesBelow(reviews'.nextId, likes)
  {
    assert E.EdgesTo(likes, E.ReviewType, E.ObjectKey(n.id)) == {};
  }

  /** A new review keeps the author counts matched once its author's count
      goes up by one. */
  lemma {:induction false} InsertedReviewKeepsCounts(users: Table<Oid, U.User>, reviews: Table<Oid, Review>,
                                                     reviews': Table<Oid, Review>, n: Review, now: int)
    requires CountsMatch(users.rows, reviews.rows)
    requires n.id !in reviews.rows && reviews'.rows == reviews.rows[n.id := n]
    ensures CountsMatch(U.IncrementStat(users, n.userId, U.ReviewsCount, 1, now).rows, reviews'.rows)
  {
    assert ReviewsBy(reviews'.rows, n.userId) == ReviewsBy(reviews.rows, n.userId) + {n.id};
    assert forall u :: u != n.userId ==> ReviewsBy(reviews'.rows, u) == ReviewsBy(reviews.rows, u);
    CountsAfterMove(users, reviews.rows, reviews'.rows, n.userId, 1, now);
  }

  /** Inserting review `n` and updating its place's summary and its author's
      count keeps the invariant. */
  lemma {:induction false} InsertedReviewKeepsInvariant(places: Table<string, PM.Place>, reviews: Table<Oid, Review>,
                                                        reviews': Table<Oid, Review>, users: Table<Oid, U.User>,
                                                        likes: map<E.EdgeKey, E.Edge>, n: Review, now: int)
    requires ReviewStoresValid(places, reviews, users, likes) && ReviewsValid(reviews')
    requires n.id == reviews.Fresh() && n.likesCount == 0 && n.id !in reviews.rows
    requires reviews'.rows == reviews.rows[n.id := n] && reviews'.nextId == reviews.nextId + 1
    ensures ReviewStoresValid(PM.SetRating(places, n.placeId, RatingSummaryOf(reviews'.rows, n.placeId), now), reviews',
                              U.IncrementStat(users, n.userId, U.ReviewsCount, 1, now), likes)
  {
    RatingsAfterRewrite(places, reviews.rows, reviews'.rows, n.placeId, now);
    InsertedReviewKeepsLikes(reviews, reviews', likes, n);
    InsertedReviewKeepsCounts(users, reviews, reviews', n, now);
  }

  lemma {:induction false} CreateReviewKeepsInvariant(places: Table<string, PM.Place>, reviews: Table<Oid, Review>,
                                                      users: Table<Oid, U.User>, likes: map<E.EdgeKey, E.Edge>,
                                                      me: Oid, placeId: string, rating: int, text: Option<string>, now: int)
    requires ReviewStoresValid(places, reviews, users, likes)
    ensures var (o, r, places', reviews', users') := CreateReviewStep(places, reviews, users, me, placeId, rating, text, now);
      ReviewStoresValid(places', reviews', users', likes)
  {
    var (o, r, places', reviews', users') := CreateReviewStep(places, reviews, users, me, placeId, rating, text, now);
    InsertReviewSpec(reviews, placeId, me, rating, text, now);
    if o.Ok? {
      InsertedReviewKeepsInvariant(places, reviews, reviews', users, likes, r.value, now);
    }
  }

  lemma {:induction false} UpdateReviewKeepsInvariant(places: Table<string, PM.Place>, reviews: Table<Oid, Review>,
                                                      users: Table<Oid, U.User>, likes: map<E.EdgeKey, E.Edge>,
                                                      me: Oid, reviewId: Oid, patch: ReviewPatch, now: int)
    requires ReviewStoresValid(places, reviews, users, likes)
    ensures var (o, r, places', reviews') := UpdateReviewStep(places, reviews, me, reviewId, patch, now);
      ReviewStoresValid(places', reviews', users, likes)
  {
    var (o, r, places', reviews') := UpdateReviewStep(places, reviews, me, reviewId, patch, now);
    if o.Ok? {
      PatchReviewSpec(reviews, reviewId, patch, now);
      RatingsAfterRewrite(places, reviews.rows, reviews'.rows, reviews.rows[reviewId].placeId, now);
      assert forall u :: ReviewsBy(reviews'.rows, u) == ReviewsBy(reviews.rows, u);
    }
  }

  lemma {:induction false} DeleteReviewKeepsInvariant(places: Table<string, PM.Place>, reviews: Table<Oid, Review>,
                                                      users: Table<Oid, U.User>, likes: map<E.EdgeKey, E.Edge>,
                                                      me: Oid, reviewId: Oid, now: int)
    requires ReviewStoresValid(places, reviews, users, likes)
    ensures var (o, places', reviews', users') := DeleteReviewStep(places, reviews, users, me, reviewId, now);
      ReviewStoresValid(places', reviews', users', likes)
  {
    var (o, places', reviews', users') := DeleteReviewStep(places, reviews, users, me, reviewId, now);
    if o.Ok? {
      RemoveReviewSpec(reviews, reviewId);
      RatingsAfterRewrite(places, reviews.rows, reviews'.rows, reviews.rows[reviewId].placeId, now);
      assert ReviewsBy(reviews'.rows, me) == ReviewsBy(reviews.rows, me) - {reviewId};
      assert forall u :: u != me ==> ReviewsBy(reviews'.rows, u) == ReviewsBy(reviews.rows, u);
      CountsAfterMove(users, reviews.rows, reviews'.rows, me, -1, now);
    }
  }

  /** A like count update leaves every summary and every author count alone. */
  lemma {:induction false} LikesCountMovesNothingElse(places: Table<string, PM.Place>, reviews: Table<Oid, Review>,
                                                      users: Table<Oid, U.User>, reviewId: Oid, delta: int, now: int)
    requires ReviewsValid(reviews) && RatingsMatch(places.rows, reviews.rows) && CountsMatch(users.rows, reviews.rows)
    ensures var reviews' := AddToLikes(reviews, reviewId, delta, now);
      && ReviewsValid(reviews') && reviews'.nextId == reviews.nextId
      && RatingsMatch(places.rows, reviews'.rows) && CountsMatch(users.rows, reviews'.rows)
  {
    var reviews' := AddToLikes(reviews, reviewId, delta, now);
    AddToLikesSpec(reviews, reviewId, delta, now);
    assert forall id :: id in reviews.rows ==>
      (reviews'.rows[id].placeId == reviews.rows[id].placeId && reviews'.rows[id].rating == reviews.rows[id].rating &&
       reviews'.rows[id].userId == reviews.rows[id].userId);
    forall q | q in places.rows ensures places.rows[q].ratingSummary == RatingSummaryOf(reviews'.rows, q) {
      RatingSummaryOfPlaceOnly(reviews.rows, reviews'.rows, q);
    }
    assert forall u :: ReviewsBy(reviews'.rows, u) == ReviewsBy(reviews.rows, u);
  }

  /** When one review's likesCount moves by `delta` and the like records
      pointing at it change by as many, and those of no other review change,
      every likesCount stays matched. */
  lemma {:induction false} LikesAfterMove(reviews: Table<Oid, Review>, likes: map<E.EdgeKey, E.Edge>,
                                          likes': map<E.EdgeKey, E.Edge>, reviewId: Oid, delta: int, now: int)
    requires ReviewsValid(reviews) && LikesMatch(reviews.rows, likes)
    requires forall id :: id in reviews.rows ==>
      E.CountTo(likes', E.ReviewType, E.ObjectKey(id)) == E.CountTo(likes, E.ReviewType, E.ObjectKey(id)) + (if id == reviewId then delta else 0)
    ensures LikesMatch(AddToLikes(reviews, reviewId, delta, now).rows, likes')
  {
    AddToLikesSpec(reviews, reviewId, delta, now);
  }

  lemma {:induction false} LikeReviewKeepsInvariant(places: Table<string, PM.Place>, reviews: Table<Oid, Review>,
                                                    users: Table<Oid, U.User>, likes: map<E.EdgeKey, E.Edge>,
                                                    me: Oid, reviewId: Oid, now: int)
    requires ReviewStoresValid(places, reviews, users, likes)
    ensures var (o, reviews', likes') := LikeReviewStep(reviews, likes, me, reviewId, now);
      ReviewStoresValid(places, reviews', users, likes')
  {
    var (o, reviews', likes') := LikeReviewStep(reviews, likes, me, reviewId, now);
    if o.Ok? {
      LikesCountMovesNothingElse(places, reviews, users, reviewId, 1, now);
      forall id | id in reviews.rows
        ensures E.CountTo(likes', E.ReviewType, E.ObjectKey(id)) ==
          E.CountTo(likes, E.ReviewType, E.ObjectKey(id)) + (if id == reviewId then 1 else 0)
      {
        E.CountAfterInsert(likes, ReviewLike(me, reviewId), now, E.ReviewType, E.ObjectKey(id));
      }
      LikesAfterMove(reviews, likes, likes', reviewId, 1, now);
      assert reviewId.n < reviews.nextId;
    }
  }

  lemma {:induction false} UnlikeReviewKeepsInvariant(places: Table<string, PM.Place>, reviews: Table<Oid, Review>,
                                                      users: Table<Oid, U.User>, likes: map<E.EdgeKey, E.Edge>,
                                                      me: Oid, reviewId: Oid, now: int)
    requires ReviewStoresValid(places, reviews, users, likes)
    ensures var (o, reviews', likes') := UnlikeReviewStep(reviews, likes, me, reviewId, now);
      ReviewStoresValid(places, reviews', users, likes')
  {
    var (o, reviews', likes') := UnlikeReviewStep(reviews, likes, me, reviewId, now);
    if o.Ok? {
      LikesCountMovesNothingElse(places, reviews, users, reviewId, -1, now);
      forall id | id in reviews.rows
        ensures E.CountTo(likes', E.ReviewType, E.ObjectKey(id)) ==
          E.CountTo(likes, E.ReviewType, E.ObjectKey(id)) + (if id == reviewId then -1 else 0)
      {
        E.CountAfterRemove(likes, ReviewLike(me, reviewId), E.ReviewType, E.ObjectKey(id));
      }
      LikesAfterMove(reviews, likes, likes', reviewId, -1, now);
    }
  }

  // ---------------------------------------------------------------------------
  // Effects

  /** A create succeeds exactly for an existing place the caller has not
      reviewed; the new review then joins the place's summary, which counts
      one more review and sums one more rating, and the caller's
      reviewsCount goes up by one. */
  lemma {:induction false} CreateReviewEffects(places: Table<string, PM.Place>, reviews: Table<Oid, Review>,
                                               users: Table<Oid, U.User>, me: Oid, placeId: string, rating: int,
                                               text: Option<string>, now: int)
    requires ReviewsValid(reviews)
    ensures var (o, r, places', reviews', users') := CreateReviewStep(places, reviews, users, me, placeId, rating, text, now);
      && (o == PlaceNotFound <==> placeId !in places.rows)
      && (o == ReviewExists <==> placeId in places.rows && HasReview(reviews.rows, me, placeId))
      && (o.Ok? <==> placeId in places.rows && !HasReview(reviews.rows, me, placeId))
      && (o.Ok? ==>
            && o.status == 201 && r.Some?
            && r.value.placeId == placeId && r.value.userId == me && r.value.rating == rating && r.value.likesCount == 0
            && reviews'.rows == reviews.rows[r.value.id := r.value] && r.value.id !in reviews.rows
            && places'.rows[placeId].ratingSummary.count == |OfPlace(reviews.rows, placeId)| + 1
            && RatingSum(reviews'.rows, OfPlace(reviews'.rows, placeId)) == RatingSum(reviews.rows, OfPlace(reviews.rows, placeId)) + rating
            && (me in users.rows ==> users'.rows[me].stats.reviewsCount == users.rows[me].stats.reviewsCount + 1))
      && (!o.Ok? ==> places' == places && reviews' == reviews && users' == users)
  {
    var (o, r, places', reviews', users') := CreateReviewStep(places, reviews, users, me, placeId, rating, text, now);
    InsertReviewSpec(reviews, placeId, me, rating, text, now);
    if o.Ok? {
      RatingSumAfterInsert(reviews.rows, r.value);
    }
  }

  /** An update succeeds exactly for an existing review of the caller; the
      place's summary is then the one the updated reviews give. */
  lemma {:induction false} UpdateReviewEffects(places: Table<string, PM.Place>, reviews: Table<Oid, Review>,
                                               me: Oid, reviewId: Oid, patch: ReviewPatch, now: int)
    requires ReviewsValid(reviews)
    ensures var (o, r, places', reviews') := UpdateReviewStep(places, reviews, me, reviewId, patch, now);
      && (o == ReviewNotFound <==> reviewId !in reviews.rows)
      && (o == Forbidden <==> reviewId in reviews.rows && reviews.rows[reviewId].userId != me)
      && (o.Ok? <==> reviewId in reviews.rows && reviews.rows[reviewId].userId == me)
      && (o.Ok? ==>
            var placeId := reviews.rows[reviewId].placeId;
            && r.Some? && r.value == reviews'.rows[reviewId]
            && r.value.rating == patch.rating.GetOr(reviews.rows[reviewId].rating)
            && r.value.text == patch.text.GetOr(reviews.rows[reviewId].text)
            && (placeId in places.rows ==> places'.rows[placeId].ratingSummary == RatingSummaryOf(reviews'.rows, placeId)))
      && (!o.Ok? ==> places' == places && reviews' == reviews)
  {
    var (o, r, places', reviews') := UpdateReviewStep(places, reviews, me, reviewId, patch, now);
    if o.Ok? {
      PatchReviewSpec(reviews, reviewId, patch, now);
    }
  }

  /** A delete succeeds exactly for an existing review of the caller; the
      review is gone, its place's summary counts one review fewer, and the
      caller's reviewsCount goes down by one. */
  lemma {:induction false} DeleteReviewEffects(places: Table<string, PM.Place>, reviews: Table<Oid, Review>,
                                               users: Table<Oid, U.User>, me: Oid, reviewId: Oid, now: int)
    requires ReviewsValid(reviews)
    ensures var (o, places', reviews', users') := DeleteReviewStep(places, reviews, users, me, reviewId, now);
      && (o == ReviewNotFound <==> reviewId !in reviews.rows)
      && (o == Forbidden <==> reviewId in reviews.rows && reviews.rows[reviewId].userId != me)
      && (o.Ok? <==> reviewId in reviews.rows && reviews.rows[reviewId].userId == me)
      && (o.Ok? ==>
            var placeId := reviews.rows[reviewId].placeId;
            && reviews'.rows == reviews.rows - {reviewId}
            && (placeId in places.rows ==> places'.rows[placeId].ratingSummary.count == |OfPlace(reviews.rows, placeId)| - 1)
            && (me in users.rows ==> users'.rows[me].stats.reviewsCount == users.rows[me].stats.reviewsCount - 1))
      && (!o.Ok? ==> places' == places && reviews' == reviews && users' == users)
  {
    var (o, places', reviews', users') := DeleteReviewStep(places, reviews, users, me, reviewId, now);
    if o.Ok? {
      var placeId := reviews.rows[reviewId].placeId;
      assert OfPlace(reviews'.rows, placeId) == OfPlace(reviews.rows, placeId) - {reviewId};
    }
  }

  /** A like succeeds exactly for an existing review the caller has not
      liked; it adds that one record and raises the review's likesCount. */
  lemma {:induction false} LikeReviewEffects(reviews: Table<Oid, Review>, likes: map<E.EdgeKey, E.Edge>, me: Oid, reviewId: Oid, now: int)
    ensures var (o, reviews', likes') := LikeReviewStep(reviews, likes, me, reviewId, now);
      && (o == ReviewNotFound <==> reviewId !in reviews.rows)
      && (o == AlreadyLiked <==> reviewId in reviews.rows && ReviewLike(me, reviewId) in likes)
      && (o.Ok? <==> reviewId in reviews.rows && ReviewLike(me, reviewId) !in likes)
      && (o.Ok? ==>
            && likes' == likes[ReviewLike(me, reviewId) := E.Edge(me, E.ReviewType, E.ObjectKey(reviewId), now)]
            && reviews'.rows[reviewId].likesCount == reviews.rows[reviewId].likesCount + 1)
      && (!o.Ok? ==> reviews' == reviews && likes' == likes)
  {
  }

  /** An unlike succeeds exactly when the caller's like exists, whether or
      not the review does; it deletes it and lowers the likesCount of a
      review that still exists. */
  lemma {:induction false} UnlikeReviewEffects(reviews: Table<Oid, Review>, likes: map<E.EdgeKey, E.Edge>, me: Oid, reviewId: Oid, now: int)
    ensures var (o, reviews', likes') := UnlikeReviewStep(reviews, likes, me, reviewId, now);
      && (o.Ok? <==> ReviewLike(me, reviewId) in likes)
      && (!o.Ok? ==> o == LikeNotFound && reviews' == reviews && likes' == likes)
      && (o.Ok? ==>
            && likes' == likes - {ReviewLike(me, reviewId)}
            && (reviewId in reviews.rows ==> reviews'.rows[reviewId].likesCount == reviews.rows[reviewId].likesCount - 1)
            && (reviewId !in reviews.rows ==> reviews' == reviews))
  {
  }

  // ---------------------------------------------------------------------------
  // The handlers

  method CreateReview(places: PM.PlaceTable, reviews: ReviewTable, users: U.UserTable,
                      me: Oid, placeId: string, rating: int, text: Option<string>, now: int)
    returns (o: Outcome, review: Option<Review>)
    requires places.Valid() && reviews.Valid() && users.Valid()
    modifies places, reviews, users
    ensures places.Valid() && reviews.Valid() && users.Valid()
    ensures (o, review, places.Snap(), reviews.Snap(), users.Snap()) ==
      CreateReviewStep(old(places.Snap()), old(reviews.Snap()), old(users.Snap()), me, placeId, rating, text, now)
  {
    var place := places.FindPlaceById(placeId);
    if place.None? {
      return PlaceNotFound, None;
    }
    var existing := reviews.FindReviewByUserAndPlace(me, placeId);
    if existing.Some? {
      return ReviewExists, None;
    }
    var ins := reviews.CreateReview(placeId, me, rating, text, now);
    if ins.DuplicateKey? {
      return DuplicateKeyReply, None;
    }
    var summary := reviews.GetPlaceRatingSummary(placeId);
    places.UpdatePlaceRating(placeId, summary, now);
    users.IncrementUserStat(me, U.ReviewsCount, 1, now);
    o, review := Ok(201), Some(ins.value);
  }

  method UpdateReview(places: PM.PlaceTable, reviews: ReviewTable, me: Oid, reviewId: Oid, patch: ReviewPatch, now: int)
    returns (o: Outcome, review: Option<Review>)
    requires places.Valid() && reviews.Valid()
    modifies places, reviews
    ensures places.Valid() && reviews.Valid()
    ensures (o, review, places.Snap(), reviews.Snap()) == UpdateReviewStep(old(places.Snap()), old(reviews.Snap()), me, reviewId, patch, now)
  {
    var found := reviews.FindReviewById(reviewId);
    if found.None? {
      return ReviewNotFound, None;
    }
    if found.value.userId != me {
      return Forbidden, None;
    }
    review := reviews.UpdateReview(reviewId, patch, now);
    var summary := reviews.GetPlaceRatingSummary(found.value.placeId);
    places.UpdatePlaceRating(found.value.placeId, summary, now);
    o := Ok(200);
  }

  method DeleteReview(places: PM.PlaceTable, reviews: ReviewTable, users: U.UserTable, me: Oid, reviewId: Oid, now: int)
    returns (o: Outcome)
    requires places.Valid() && reviews.Valid() && users.Valid()
    modifies places, reviews, users
    ensures places.Valid() && reviews.Valid() && users.Valid()
    ensures (o, places.Snap(), reviews.Snap(), users.Snap()) ==
      DeleteReviewStep(old(places.Snap()), old(reviews.Snap()), old(users.Snap()), me, reviewId, now)
  {
    var found := reviews.FindReviewById(reviewId);
    if found.None? {
      return ReviewNotFound;
    }
    if found.value.userId != me {
      return Forbidden;
    }
    var placeId := found.value.placeId;
    var _ := reviews.DeleteReview(reviewId);
    var summary := reviews.GetPlaceRatingSummary(placeId);
    places.UpdatePlaceRating(placeId, summary, now);
    users.IncrementUserStat(me, U.ReviewsCount, -1, now);
    o := Ok(200);
  }

  method LikeReview(reviews: ReviewTable, likes: E.EdgeTable, me: Oid, reviewId: Oid, now: int) returns (o: Outcome)
    requires reviews.Valid() && likes.Valid()
    modifies reviews, likes
    ensures reviews.Valid() && likes.Valid()
    ensures (o, reviews.Snap(), likes.rows) == LikeReviewStep(old(reviews.Snap()), old(likes.rows), me, reviewId, now)
  {
    var found := reviews.FindReviewById(reviewId);
    if found.None? {
      return ReviewNotFound;
    }
    var existing := likes.Find(ReviewLike(me, reviewId));
    if existing.Some? {
      return AlreadyLiked;
    }
    var ins := likes.Create(ReviewLike(me, reviewId), now);
    if ins.DuplicateKey? {
      return DuplicateKeyReply;
    }
    reviews.UpdateReviewCounts(reviewId, 1, now);
    o := Ok(200);
  }

  method UnlikeReview(reviews: ReviewTable, likes: E.EdgeTable, me: Oid, reviewId: Oid, now: int) returns (o: Outcome)
    requires reviews.Valid() && likes.Valid()
    modifies reviews, likes
    ensures reviews.Valid() && likes.Valid()
    ensures (o, reviews.Snap(), likes.rows) == UnlikeReviewStep(old(reviews.Snap()), old(likes.rows), me, reviewId, now)
  {
    var deleted := likes.Delete(ReviewLike(me, reviewId));
    if !deleted {
      assert likes.rows == old(likes.rows);
      return LikeNotFound;
    }
    reviews.UpdateReviewCounts(reviewId, -1, now);
    o := Ok(200);
  }
}
