# Deja Brew backend: a verified model of its request handlers

Deja Brew is a REST backend over MongoDB for finding study places. Users like
and save places and promotions, review places, befriend and block each other,
and organise study sessions that others ask to join. Every handler does the
same thing: it reads some records, checks guards in order, writes records,
and moves the denormalised counters that the listings show.

This project models that core in Dafny. The document store becomes a set of
in-memory tables, one per collection. Each table is keyed by the collection's
unique index from `config/database.js`: users by id, with unique e-mail and
username; places by `placeId`; reviews by id, one per (place, user);
participants by (session, user); likes and saved records by (user, target
type, target id); friendships by (user, friend); friend requests by id, one
per (from, to); blocks by (blocker, blocked).

How the model is built:

- **Tables.** Each collection is a `class` (`UserTable`, `PlaceTable`,
  `EdgeTable`, ...). Its `rows` map and `nextId` counter are changed in place
  by the model file's functions (`createX`, `updateX`, `deleteX`,
  `incrementX`). Each method states its new state through a pure function
  on the table's value (`Snap()`), and those functions carry the lemmas.
- **Handlers.** Each controller handler is a method over the tables it
  touches. One request is one atomic step. The method's contract says that
  its outcome and the new table values are exactly those of a step function
  (`JoinStep`, `LikeReviewStep`, ...). The step functions are pure, and the
  lemmas about them state the source's promises:
  - which guard answers with which (status, code), as an if-and-only-if;
  - what a success writes;
  - that a refusal changes nothing.
- **Invariants.** Separate lemmas prove that each step keeps the invariants
  the counters are meant to satisfy:
  - every like and save counter equals the number of records pointing at its
    target;
  - every rating summary is the one the place's reviews give;
  - every `reviewsCount` is the author's number of reviews;
  - a session's `participantsCount` and `acceptedCount` agree with its
    participant records and respect `maxPeople`;
  - friendships come in mirrored pairs, with at most one pending request per
    pair of users;
  - nobody blocks themself (with ids compared as ObjectIds; see "## Left out").
- **Pure code.** The validators, the authentication ladder, the error
  classifier, pagination and the aggregation helpers are plain functions.
  Their contracts state what they accept or return, as if-and-only-if
  statements over the input.

Where verifying the natural contract showed that the source does not do what
it evidently means, the model keeps the code as written beside a corrected
version and proves both halves (see "## Findings"). The handlers use the
corrected versions.

Files: `common.dfy` (options, ids, outcomes), one file per model
(`user.dfy`, `place.dfy`, `promo.dfy`, `review.dfy`, `edge.dfy` for likes
and saved records, `block.dfy`, `report.dfy`, `friend.dfy`,
`friend_request.dfy`, `notification.dfy`, `study_session.dfy`,
`session_participant.dfy`), `listing.dfy` (sort, skip and limit),
`aggregations.dfy`, one file per controller, and `validation.dfy`,
`auth_middleware.dfy`, `error_handler.dfy` for the middleware.

## Model

| member | source | states |
|---|---|---|
| UserModel.ExplicitFalseLostAsWritten | models/User.js:18-24 | as written, preferences with `wifi: false, outlets: false` are stored with both true |
| UserModel.AsWrittenIgnoresBooleans | models/User.js:20-21 | as written, the stored wifi and outlets are true for every input |
| UserModel.StoredPreferencesKeepsBooleans | models/User.js:18-24 | the corrected defaults keep each supplied wifi/outlets value and agree with the code as written whenever neither is false (so registration, which passes no preferences, is unaffected) |
| UserModel.NewUserRecord | models/User.js:10-40 | a new account has zeroed stats, is not banned, has no ban reason, a non-empty display name (the supplied non-empty one, else the default), and createdAt = updatedAt = now; its preferences are the corrected defaults (see UserModel.StoredPreferencesKeepsBooleans), not the `\|\| true` of lines 20-21 |
| UserModel.WithoutPasswordHidesOnlyHash | controllers/authController.js:45 | the public view of a user hides the password hash and nothing else: two records have equal views iff they differ at most in the hash |
| UserModel.UserByEmail | models/User.js:51-54 | the lookup finds a record iff some user has that email, and the record found is stored and has that email |
| UserModel.AddToStatMovesOneCounter | models/User.js:93-102 | `$inc` on `stats.<field>` moves that counter by the amount and leaves every other counter as it was |
| UserModel.InsertUserKeepsValid | models/User.js:42-43 | an insert keeps the unique email and username indexes (config/database.js:42-43), succeeds iff neither value is taken, and the email lookup then finds the inserted record |
| UserModel.PatchKeepsValid | models/User.js:61-75 | a profile update keeps both unique indexes |
| UserModel.IncrementKeepsValid | models/User.js:93-102 | a counter update keeps both unique indexes |
| UserModel.SearchHits | models/User.js:81-87 | an id is a hit exactly when it is stored and the user's username or display name matches; there are no more hits than users |
| UserModel.Views | models/User.js:88 | the projection has one view per id, the i-th being the i-th user without its hash |
| UserModel.ViewsHold | models/User.js:88 | the projected list holds the password-free view of every id in it |
| UserModel.SearchUsers | models/User.js:77-91 | as many results as there are hits, cut to `limit` when positive (0 meaning no limit); each is the password-free view of a matching user; when the limit admits every hit, every matching user's view is returned |
| UserModel.UserTable.constructor | config/database.js:42-43 | an empty collection satisfies the index invariant |
| UserModel.UserTable.CreateUser | models/User.js:6-44 | the collection after the call is `InsertUser` of the one before (corrected preference defaults, see UserModel.StoredPreferencesKeepsBooleans; fresh id; refused with DuplicateKey by a taken email or username) and keeps the indexes |
| UserModel.UserTable.FindUserById | models/User.js:46-49 | finds a record iff the id is stored, and returns that record |
| UserModel.UserTable.FindUserByEmail | models/User.js:51-54 | returns exactly `UserByEmail`: the unique user with that email, or None |
| UserModel.UserTable.FindUserByUsername | models/User.js:56-59 | finds a record iff the username is taken, and the record is stored under its id with that username |
| UserModel.UserTable.UpdateUser | models/User.js:61-75 | supplied fields take the supplied values, the rest are kept, updatedAt is now; None and no change for an unknown id; indexes kept |
| UserModel.UserTable.IncrementUserStat | models/User.js:93-102 | one counter moves by the amount and updatedAt is now; nothing changes for an unknown id; indexes kept |
| PlaceModel.NewPlaceRecord | models/Place.js:10-32 | a new place has rating summary 0/0, both counters 0, its placeId, wifi and outlets as given, and the defaults for absent fields ('$$' price level, empty lists, no coordinates) |
| PlaceModel.PlaceUpdatesTouchOnlyTheirFields | models/Place.js:100-123 | `updatePlaceRating` sets the summary and `updatePlaceCounts` moves the one named counter by the increment; apart from updatedAt nothing else in that place, no other place and no key changes, and an unknown placeId changes nothing |
| PlaceModel.FindPlaces | models/Place.js:43-98 | refused (store error) iff the skip `(page-1)*limit` is negative, with page and limit defaulting to 1 and 20; otherwise the places are exactly the window of `limit` places starting at the skip in the matching places sorted descending by the chosen key (average rating, likes, or creation time); the page reports page, limit and the number of all matching places, and holds only stored places that pass every given filter, at most `limit` of them |
| PlaceModel.FindPlacesListsEachOnce | models/Place.js:81-90 | with a positive limit, every stored place that passes the filters is listed on exactly one page number of at least 1 |
| PlaceModel.PlaceTable.constructor | models/Place.js:4 | an empty collection satisfies the placeId-key invariant |
| PlaceModel.PlaceTable.CreatePlace | models/Place.js:6-36 | the collection after the call is `InsertPlace` of the one before: the new record under its placeId, or DuplicateKey and no change when the placeId exists (config/database.js:46) |
| PlaceModel.PlaceTable.FindPlaceById | models/Place.js:38-41 | finds a place iff its placeId is stored, and the record has that placeId |
| PlaceModel.PlaceTable.UpdatePlaceRating | models/Place.js:100-112 | the collection after the call is `SetRating` of the one before |
| PlaceModel.PlaceTable.UpdatePlaceCounts | models/Place.js:114-123 | the collection after the call is `AddToCounter` of the one before |
| PromoModel.NewPromoRecord | models/Promo.js:10-23 | a new promo has both counters 0, is active unless `isActive` is supplied (then it is the supplied value), and keeps its promoId, placeId and window |
| PromoModel.AddToPromoCounterTouchesOne | models/Promo.js:79-88 | a count update moves the named counter by the increment, leaves the other counter and every other field but updatedAt, every other promo and the key set unchanged |
| PromoModel.EndingSoonAscending | models/Promo.js:51-52 | under the 'endingSoon' sort the listing runs by promoEnd ascending |
| PromoModel.FindPromos | models/Promo.js:29-72 | refused iff the skip is negative (page and limit defaulting to 1 and 20); otherwise the promos are exactly the window at the skip of the matching promos sorted by the chosen key; page, limit and the count of all matching promos; only stored promos matching placeId, tag and (for `active=true`) the active window at `now`, at most `limit` of them |
| PromoModel.FindPromosListsEachOnce | models/Promo.js:55-65 | with a positive limit, every stored matching promo is listed on exactly one page number of at least 1 |
| PromoModel.PromoTable.constructor | models/Promo.js:4 | an empty collection satisfies the promoId-key invariant |
| PromoModel.PromoTable.CreatePromo | models/Promo.js:6-27 | the collection after the call is `InsertPromo` of the one before |
| PromoModel.PromoTable.FindPromoById | models/Promo.js:74-77 | finds a promo iff its promoId is stored, and the record has that promoId |
| PromoModel.PromoTable.UpdatePromoCounts | models/Promo.js:79-88 | the collection after the call is `AddToPromoCounter` of the one before |
| ReviewModel.NewReviewRecord | models/Review.js:10-18 | a new review has no likes, its place, author and rating, and text '' when none is given |
| ReviewModel.InsertReviewSpec | models/Review.js:6-22 | a create adds one fresh record iff the (place, user) pair has no review yet, and otherwise changes nothing; the unique index (config/database.js:58) is kept |
| ReviewModel.PatchReviewSpec | models/Review.js:46-60 | an update finds the review iff it exists, sets each supplied field and keeps each absent one, changes nothing else but updatedAt, leaves every other review alone and keeps the index |
| ReviewModel.RemoveReviewSpec | models/Review.js:62-66 | a delete reports true iff the id existed, removes exactly that id and keeps the index |
| ReviewModel.AddToLikesSpec | models/Review.js:92-101 | a count update moves likesCount by the increment, changes nothing else but updatedAt, keeps the key set and the index |
| ReviewModel.RatingSumTakeAny | models/Review.js:76 | the sum of ratings does not depend on the order the reviews are summed in |
| ReviewModel.RatingSumBounds | models/Review.js:76 | with ratings in 1..5, the sum lies between the count and five times the count |
| ReviewModel.RatingSummaryOf | models/Review.js:68-90 | the summary counts exactly the place's reviews, and is 0/0 when there are none |
| ReviewModel.RoundedTenthsInScale | models/Review.js:87 | rounding an average of ratings in 1..5 to tenths stays between 1.0 and 5.0 |
| ReviewModel.MulLe | models/Review.js:87 | multiplying both sides of an inequality by a non-negative number keeps it (a step of the rounding bound) |
| ReviewModel.RatingSummaryInScale | models/Review.js:68-90 | when every stored rating is in 1..5, a place with reviews gets an average between 1.0 and 5.0 |
| ReviewModel.RatingSumCongruent | models/Review.js:76 | the sum depends only on the ratings of the summed reviews |
| ReviewModel.RatingSummaryOfPlaceOnly | models/Review.js:72 | a place's summary depends only on that place's reviews and their ratings |
| ReviewModel.RatingSumAfterInsert | models/Review.js:68-90 | a new review of a place adds itself to the place's reviews and its rating to their sum |
| ReviewModel.FindReviewsByPlaceId | models/Review.js:24-39 | refused iff the skip is negative; otherwise exactly the window at the skip of the place's reviews sorted newest first: sorted, only stored reviews of that place, at most `limit` of them |
| ReviewModel.FindReviewsListsEachOnce | models/Review.js:27-36 | with a positive limit, every stored review of the place is listed on exactly one page number of at least 1 |
| ReviewModel.ReviewTable.constructor | models/Review.js:4 | an empty collection satisfies the index invariant |
| ReviewModel.ReviewTable.CreateReview | models/Review.js:6-22 | the collection after the call is `InsertReview` of the one before |
| ReviewModel.ReviewTable.FindReviewById | models/Review.js:41-44 | finds a review iff its id is stored, and returns that record |
| ReviewModel.ReviewTable.FindReviewByUserAndPlace | models/Review.js:103-109 | finds a review iff the pair has one, and the record is stored, by that user, for that place |
| ReviewModel.ReviewTable.UpdateReview | models/Review.js:46-60 | the collection after the call is `PatchReview` of the one before |
| ReviewModel.ReviewTable.DeleteReview | models/Review.js:62-66 | the result and the collection after the call are `RemoveReview` of the one before |
| ReviewModel.ReviewTable.UpdateReviewCounts | models/Review.js:92-101 | the collection after the call is `AddToLikes` of the one before |
| ReviewModel.ReviewTable.GetPlaceRatingSummary | models/Review.js:68-90 | the loop that sums and counts the place's reviews one at a time returns `RatingSummaryOf` the collection |
| EdgeModel.FindAgreesWithCreateAndDelete | models/Like.js:6-52 | after a create the key is found, inserted iff it was absent (with createdAt now) and unchanged otherwise; after a delete the key is gone and true is reported iff it was there; no other key is affected and the unique index (config/database.js:74, 78) holds |
| EdgeModel.EdgesToAfterPut | models/Saved.js:17 | adding an absent key adds it to the edges of its own target only |
| EdgeModel.CountAfterInsert | models/Like.js:6-19 | a create raises the edge count of its own target by one when it inserts and changes no count otherwise |
| EdgeModel.CountAfterRemove | models/Like.js:37-52 | a delete lowers the edge count of its own target by one when it removes a record and changes no count otherwise |
| EdgeModel.FindUserEdges | models/Saved.js:54-72 | refused iff the skip is negative (page and limit defaulting to 1 and 50); otherwise exactly the window at the skip of the user's edges (of the given type, when one is given) sorted newest first: sorted, only those edges, at most `limit` of them |
| EdgeModel.FindUserEdgesListsEachOnce | models/Saved.js:62-71 | with a positive limit, every stored edge of the user (of the given type) is listed on exactly one page number of at least 1 |
| EdgeModel.EdgeTable.constructor | models/Like.js:4 | an empty collection satisfies the key invariant |
| EdgeModel.EdgeTable.Create | models/Saved.js:6-19 | the result and the collection after the call are `InsertEdge` of the one before |
| EdgeModel.EdgeTable.Find | models/Saved.js:21-35 | finds an edge iff its key is stored, and the edge has that key |
| EdgeModel.EdgeTable.Delete | models/Saved.js:37-52 | the result and the collection after the call are `RemoveEdge` of the one before |
| EdgeModel.EdgeTable.CheckMultiple | models/Saved.js:74-92 | an asked-for target is returned iff the user has an edge of that type to it |
| BlockModel.BlockOperationsAgree | models/Block.js:6-57 | a block is directional: creating (u, b) inserts iff the pair was absent and adds exactly that key, after which b is in u's blocked list and the pair counts as blocked both ways; deleting reports true iff the pair existed, removes it and b from u's list, and leaves the pair blocked only through (b, u); `isBlocked` is symmetric and u's blocked list holds exactly the users u blocks |
| BlockModel.BlockTable.constructor | models/Block.js:4 | an empty collection satisfies the key invariant |
| BlockModel.BlockTable.CreateBlock | models/Block.js:6-18 | the result and the collection after the call are `InsertBlock` of the one before (unique index, config/database.js:95) |
| BlockModel.BlockTable.FindBlock | models/Block.js:20-26 | finds a block iff the directed pair is stored, and the record names that pair |
| BlockModel.BlockTable.DeleteBlock | models/Block.js:28-36 | the result and the collection after the call are `RemoveBlock` of the one before |
| ReportModel.ReportTable.constructor | models/Report.js:4 | an empty collection satisfies the id invariant |
| ReportModel.ReportTable.CreateReport | models/Report.js:6-20 | the new report is stored under a fresh id with the reporter, target and reason given |
| FriendModel.InsertPairOnSymmetric | models/Friend.js:6-25 | on mirrored rows, the ordered two-row insert succeeds iff the users differ and are not yet friends, and then adds exactly both directions; between two distinct users a failure changes nothing; the rows stay mirrored (unique index config/database.js:86) |
| FriendModel.RemovePairSpec | models/Friend.js:43-54 | deleting both directions keeps the rows mirrored, leaves the two users friends in neither direction and touches no other pair |
| FriendModel.AreFriendsSymmetric | models/Friend.js:56-64 | on mirrored rows `areFriends(u, f)` equals `areFriends(f, u)` |
| FriendModel.FindUserFriends | models/Friend.js:35-41 | newest first, and holds exactly the stored rows of that user |
| FriendModel.FriendTable.constructor | models/Friend.js:4 | an empty collection satisfies the key invariant |
| FriendModel.FriendTable.CreateFriendship | models/Friend.js:6-25 | the result and the rows after the call are `InsertPair` of the rows before (the rows `insertMany` writes before it stops) |
| FriendModel.FriendTable.FindFriendship | models/Friend.js:27-33 | finds a row iff the users are friends in that direction, and the row names that pair |
| FriendModel.FriendTable.DeleteFriendship | models/Friend.js:43-54 | the rows after the call are `RemovePair` of the rows before |
| FriendRequestModel.PendingBetweenSymmetric | models/FriendRequest.js:27-36 | the pending lookup between two users does not depend on the order of its arguments |
| FriendRequestModel.InsertRequestSpec | models/FriendRequest.js:6-20 | a create succeeds iff no request from `from` to `to` exists in any status, and stores a pending request under a fresh id addressed as asked; otherwise nothing changes; the unique index (config/database.js:82) is kept |
| FriendRequestModel.SetRequestStatusSpec | models/FriendRequest.js:49-63 | a status update finds the request iff it exists, changes only its status and updatedAt, and touches no other request or key |
| FriendRequestModel.FindIncomingRequests | models/FriendRequest.js:38-47 | newest first, and holds exactly the stored pending requests addressed to the user |
| FriendRequestModel.FriendRequestTable.constructor | models/FriendRequest.js:4 | an empty collection satisfies the index invariant |
| FriendRequestModel.FriendRequestTable.CreateFriendRequest | models/FriendRequest.js:6-20 | the result and the collection after the call are `InsertRequest` of the one before |
| FriendRequestModel.FriendRequestTable.FindRequestById | models/FriendRequest.js:22-25 | finds a request iff its id is stored, and returns that record |
| FriendRequestModel.FriendRequestTable.FindPendingRequest | models/FriendRequest.js:27-36 | None iff there is no pending request between the two users in either direction; otherwise one of those requests |
| FriendRequestModel.FriendRequestTable.UpdateRequestStatus | models/FriendRequest.js:49-63 | the result and the collection after the call are `SetRequestStatus` of the one before |
| NotificationModel.NewNotificationRecord | models/Notification.js:23-31 | a new notification is unread, for the given user and of the given type, with description '' and data {} when they are not given |
| NotificationModel.InsertEachKeeps | controllers/sessionController.js:453-467 | one insert per recipient adds exactly |to| records under the next fresh ids, keeps every old record unchanged and keeps the id invariant |
| NotificationModel.InsertEachKeepsOld | controllers/sessionController.js:453-467 | inserting for more recipients keeps any record already stored |
| NotificationModel.InsertEachAddsOnePerRecipient | controllers/sessionController.js:453-467 | the record under the i-th new id is the one built for the i-th recipient |
| NotificationModel.MarkReadTouchesOne | models/Notification.js:59-65 | marking one notification sets its isRead and changes nothing else in it, in any other notification or in the key set |
| NotificationModel.MarkAllReadSpec | models/Notification.js:67-73 | after marking all, every notification of the user is read and otherwise unchanged, other users' notifications are unchanged, and marking all again changes nothing |
| NotificationModel.FindUserNotifications | models/Notification.js:37-57 | refused iff the skip is negative (page and limit defaulting to 1 and 50); otherwise exactly the window at the skip of the user's notifications sorted newest first, at most `limit` of them; page, limit and the count of all the user's notifications; only that user's stored notifications |
| NotificationModel.FindUserNotificationsListsEachOnce | models/Notification.js:40-49 | with a positive limit, every notification of the user is listed on exactly one page number of at least 1 |
| NotificationModel.NotificationTable.constructor | models/Notification.js:4 | an empty collection satisfies the id invariant |
| NotificationModel.NotificationTable.CreateNotification | models/Notification.js:19-35 | the collection after the call is `InsertNotification` of the one before, and the returned record is the one stored under the fresh id |
| NotificationModel.NotificationTable.CreateEach | controllers/sessionController.js:451-467 | the loop of inserts leaves the collection equal to `InsertEach` of the one before |
| NotificationModel.NotificationTable.MarkNotificationAsRead | models/Notification.js:59-65 | the collection after the call is `MarkRead` of the one before |
| NotificationModel.NotificationTable.MarkAllNotificationsAsRead | models/Notification.js:67-73 | the collection after the call is `MarkAllRead` of the one before |
| StudySessionModel.NewSessionRecord | models/StudySession.js:10-26 | a new session is open, counts its creator once among participants and once among the accepted, is public unless told otherwise, has notes '' when none, and keeps its creator and capacity |
| StudySessionModel.SetCountsWritesOnlyDefined | models/StudySession.js:97-117 | each defined entry of `updates` is written, each undefined one leaves its field, nothing else in the record but updatedAt changes, and other sessions and the key set are untouched |
| StudySessionModel.PatchSessionWritesOnlySupplied | models/StudySession.js:81-95 | an update returns the new record, sets a supplied status and keeps an absent one, changes no field outside the patch but updatedAt (set to now), and leaves other sessions alone |
| StudySessionModel.FindSessions | models/StudySession.js:32-74 | refused iff the skip is negative (page and limit defaulting to 1 and 20); otherwise exactly the window at the skip of the matching sessions sorted by participants ('popular') or creation time; page, limit and the count of all matching sessions; only stored sessions passing every given filter, at most `limit` of them |
| StudySessionModel.FindSessionsListsEachOnce | models/StudySession.js:57-66 | with a positive limit, every stored matching session is listed on exactly one page number of at least 1 |
| StudySessionModel.SessionTable.constructor | models/StudySession.js:4 | an empty collection satisfies the id invariant |
| StudySessionModel.SessionTable.CreateSession | models/StudySession.js:6-30 | the result and the collection after the call are `InsertSession` of the one before, under a fresh id |
| StudySessionModel.SessionTable.FindSessionById | models/StudySession.js:76-79 | finds a session iff its id is stored, and returns that record |
| StudySessionModel.SessionTable.UpdateSession | models/StudySession.js:81-95 | the result and the collection after the call are `PatchSession` of the one before |
| StudySessionModel.SessionTable.UpdateSessionCounts | models/StudySession.js:97-117 | building the update from the defined entries and writing it leaves the collection equal to `SetCounts` of the one before |
| ParticipantModel.CountAfterPut | models/SessionParticipant.js:66-72 | overwriting or adding one record moves each (session, status) count by at most one: the old record leaves its count and the new one joins its own |
| ParticipantModel.CountAfterRemove | models/SessionParticipant.js:56-72 | removing one record lowers only the count it was in, by one |
| ParticipantModel.CountOfUnknownSession | models/SessionParticipant.js:66-72 | a session with no records has every count zero |
| ParticipantModel.KeyedOperationsAgree | models/SessionParticipant.js:6-64 | a create inserts iff the (session, user) pair has no record, and the record is found with the given status or pending; a status update finds the record iff it exists and changes only its status and updatedAt; a delete reports true iff the record existed and removes only it; the unique index (config/database.js:69) is kept throughout |
| ParticipantModel.ParticipantTable.constructor | models/SessionParticipant.js:4 | an empty collection satisfies the key invariant |
| ParticipantModel.ParticipantTable.CreateParticipant | models/SessionParticipant.js:6-20 | the result and the rows after the call are `InsertParticipant` of the rows before |
| ParticipantModel.ParticipantTable.FindParticipant | models/SessionParticipant.js:29-35 | finds a record iff the pair has one, and returns it |
| ParticipantModel.ParticipantTable.UpdateParticipantStatus | models/SessionParticipant.js:37-54 | the result and the rows after the call are `SetStatus` of the rows before |
| ParticipantModel.ParticipantTable.DeleteParticipant | models/SessionParticipant.js:56-64 | the result and the rows after the call are `RemoveParticipant` of the rows before |
| ParticipantModel.ParticipantTable.CountParticipantsByStatus | models/SessionParticipant.js:66-72 | the count is the number of records of that session with that status |
| ParticipantModel.ParticipantTable.SessionUserIds | models/SessionParticipant.js:22-27 | the loop over the records lists each user with a record for the session exactly once, and no one else |
| Listing.PageParam | models/Place.js:81-82 | `parseInt(x) \|\| default`: the default for a missing, unparsable or zero value, the parsed value otherwise |
| Listing.LimitCount | models/Place.js:89 | `.limit(n)` lets through at most \|n\| documents, and all of them for 0 |
| Listing.Window | models/Place.js:83-89 | a negative skip is refused by the store; otherwise the page is the documents from position `skip` on, at most `limit` of them, and empty past the end |
| Listing.PagesTile | models/Place.js:81-89 | pages 1 to k with a positive limit are together exactly the first k times limit documents: no document is skipped or repeated between pages |
| Listing.InsertDescPermutes | models/Place.js:87 | inserting into a sorted list adds exactly that one element |
| Listing.InsertDescSorted | models/Place.js:87 | inserting into a list sorted largest key first keeps it sorted |
| Listing.SortDescSorted | models/Place.js:87 | `.sort({key: -1})` returns a permutation of its input, largest key first |
| Listing.InsertDescDistinct | models/Place.js:87 | inserting a new element into a list without repeats keeps it without repeats |
| Listing.SortDescDistinct | models/Place.js:87 | sorting a list without repeats gives a list without repeats |
| Listing.SeqOfSet | models/Place.js:85-86 | an enumeration of the matching documents holds each exactly once, without repeats |
| Listing.Ordered | models/Place.js:85-87 | the sorted result holds exactly the matching documents, each once and without repeats, largest key first |
| Listing.PageOfOrdered | models/Place.js:81-90 | the page at skip `skip` of a sorted result is the slice from `skip` to `skip + limit` (clipped to the end) when limit is positive, and everything from `skip` on when it is 0; it is sorted, holds only matching documents, and at most `limit` of them |
| Listing.PageOfPosition | models/Place.js:83 | `m` pages of `limit` documents precede position `i` exactly when `m = i / limit`: a position falls on one page only |
| Listing.OnPageOfPosition | models/Place.js:83-89 | the document at position i of a listing is on the page numbered i / limit + 1 |
| Listing.OnlyPageOfPosition | models/Place.js:83-89 | in a listing without repeats, a page that shows the document at position i is page i / limit + 1 and no other |
| Listing.OnOnePage | models/Place.js:81-90 | in a listing without repeats cut into pages of a positive limit, every element is on one page numbered from 1 and on no other |
| Listing.PageHoldsOnce | models/Place.js:81-90 | the page a sorted listing shows for page number q holds a listed document exactly when q is that document's page number |
| Aggregations.KeysOf | controllers/placeController.js:27 | one stored target id per listed item, in order |
| Aggregations.PersonalFlagsSpec | controllers/placeController.js:25-42 | the flagged listing keeps the items and their order; the flags are false for an anonymous caller and otherwise true exactly when the caller's like (saved) record for the item exists |
| Aggregations.ItemKeys | utils/aggregations.js:15 | the ids passed to the lookups are exactly the keys of the items that have one |
| Aggregations.AsWrittenFlagsByMembership | utils/aggregations.js:6-29 | the helper as written keeps the items, gives false flags without a user, and otherwise flags an item liked iff its id is liked under the type guessed from the first item |
| Aggregations.LikedPromoShownUnliked | utils/aggregations.js:15-16 | a promo the caller has liked is flagged not liked by the helper as written (promos carry a placeId, so the type guessed is 'place'), and liked by the corrected flags |
| Aggregations.LikedPlaceShownUnliked | utils/aggregations.js:15-22 | a place the caller has liked is flagged not liked by the helper as written (it looks the place's `_id` up, but place likes hold the placeId), and liked by the corrected flags |
| Aggregations.UniqueIds | utils/aggregations.js:37 | the ids of the list with the missing ones dropped, each once |
| Aggregations.UserIdsOf | utils/aggregations.js:37 | each user id the items name, once each, and no other |
| Aggregations.UserMap | utils/aggregations.js:45-55 | the map has an entry exactly for the looked-up ids whose user exists, holding that user's four public fields |
| Aggregations.PopulateUserDetailsSpec | utils/aggregations.js:34-61 | the items come back unchanged exactly when none names a user; otherwise each item gets its own user's summary when that user exists and null when not; each user id is looked up once |
| PlaceController.MovedTogether | controllers/placeController.js:127-133 | when one place's counter moves by the same amount as the number of records pointing at it, and no other place's count changes, both counters stay equal to their record counts |
| PlaceController.AddPlaceEdgeKeepsCounters | controllers/placeController.js:101-143 | a like (save) keeps every place's likesCount (savesCount) equal to the number of like (saved) records pointing at it, and the other counter too |
| PlaceController.RemovePlaceEdgeKeepsCounters | controllers/placeController.js:145-171 | an unlike (unsave) keeps both counters equal to their record counts |
| PlaceController.AddPlaceEdgeEffects | controllers/placeController.js:101-143 | 404 PLACE_NOT_FOUND iff the place is missing, 409 ALREADY_LIKED/ALREADY_SAVED iff the caller's record exists, success iff neither; success adds exactly that record and raises the counter by one; a refusal changes nothing |
| PlaceController.RemovePlaceEdgeEffects | controllers/placeController.js:145-171 | success iff the caller's record exists, then exactly that record is deleted and an existing place's counter drops by one; otherwise 404 LIKE_NOT_FOUND/SAVED_NOT_FOUND and nothing changes |
| PlaceController.GetPlacesSpec | controllers/placeController.js:7-51 | refused iff the skip is negative; otherwise the count of matching places, and the listed places are exactly the `findPlaces` window (so PlaceModel.FindPlacesListsEachOnce applies), sorted by the chosen key ('recent' by default), at most `limit` entries, each a stored matching place flagged liked (saved) iff the caller is signed in and has that record |
| PlaceController.GetPlaceByIdSpec | controllers/placeController.js:53-99 | found iff the place exists; then the place with its two flags (false for an anonymous caller), at most five reviews, all of that place, and only promos of that place active at `now` |
| PlaceController.LikePlace | controllers/placeController.js:101-143 | the reply, places and likes after the call are `AddPlaceEdgeStep` with likesCount |
| PlaceController.UnlikePlace | controllers/placeController.js:145-171 | the reply, places and likes after the call are `RemovePlaceEdgeStep` with likesCount |
| PlaceController.SavePlace | controllers/placeController.js:173-215 | the reply, places and saved records after the call are `AddPlaceEdgeStep` with savesCount |
| PlaceController.UnsavePlace | controllers/placeController.js:217-243 | the reply, places and saved records after the call are `RemovePlaceEdgeStep` with savesCount |
| PromoController.PlaceNames | controllers/promoController.js:23-30 | the name map has an entry exactly for the listed promos' places that exist, holding that place's name |
| PromoController.GetPromosSpec | controllers/promoController.js:6-59 | the listing is refused exactly for a negative skip; it counts every matching promo and lists the `findPromos` page promo by promo (so PromoModel.FindPromosListsEachOnce applies), at most `limit` of them, each stored and matching the filters, named after its place or 'Unknown', and flagged liked/saved exactly when the caller's record points at its object id |
| PromoController.GetPromosOrder | controllers/promoController.js:14-20 | the listed promos run by the chosen sort key, newest first by default |
| PromoController.InsertPromoKeepsCounters | models/Promo.js:6-27 | a new promo gets a fresh object id and zero counters, so every promo's like and save counters still equal the number of records pointing at it |
| PromoController.MovedTogether | controllers/promoController.js:87-93 | moving one promo's counter by the same amount as the records pointing at it keeps both counters matched |
| PromoController.AddPromoEdgeKeepsCounters | controllers/promoController.js:61-103 | a like or save keeps every promo's counter equal to its number of records and leaves the other counter as it was |
| PromoController.RemovePromoEdgeKeepsCounters | controllers/promoController.js:105-141 | an unlike or unsave keeps every promo's counter equal to its number of records |
| PromoController.AddPromoEdgeEffects | controllers/promoController.js:61-103 | 404 exactly for an unknown promoId, 409 exactly when the caller's record exists, success otherwise; success adds exactly the caller's record and raises the counter by one; a refusal changes nothing |
| PromoController.RemovePromoEdgeEffects | controllers/promoController.js:105-141 | 404 PROMO_NOT_FOUND exactly for an unknown promoId, 404 for a missing record, success otherwise; success deletes exactly that record and lowers the counter by one |
| PromoController.AddPromoEdge | controllers/promoController.js:61-103 | the shared like/save handler changes the promo and record tables exactly as the step and keeps them valid |
| PromoController.RemovePromoEdge | controllers/promoController.js:105-141 | the shared unlike/unsave handler changes the tables exactly as the step |
| PromoController.LikePromo | controllers/promoController.js:61-103 | `likePromo` over the likes and the like counter |
| PromoController.UnlikePromo | controllers/promoController.js:105-141 | `unlikePromo` over the likes and the like counter |
| PromoController.SavePromo | controllers/promoController.js:143-185 | `savePromo` over the saved records and the save counter |
| PromoController.UnsavePromo | controllers/promoController.js:187-223 | `unsavePromo` over the saved records and the save counter |
| ReviewController.GetPlaceReviewsSpec | controllers/reviewController.js:6-58 | 404 exactly for a missing place; the store's refusal (500 with its numeric code) exactly for an existing place and a negative skip; otherwise the place's rating summary and the `findReviewsByPlaceId` page review by review (so ReviewModel.FindReviewsListsEachOnce applies): newest first, at most `limit` reviews of that place, each with its author's public summary |
| ReviewController.RatingsAfterRewrite | controllers/reviewController.js:96-97 | recomputing one place's summary from the new reviews keeps every place's summary equal to the one its reviews give, when only that place's reviews changed |
| ReviewController.CountsAfterMove | controllers/reviewController.js:100 | moving the author's reviewsCount by as many reviews as they gained or lost keeps every user's count equal to their number of reviews |
| ReviewController.InsertedReviewKeepsLikes | controllers/reviewController.js:60-110 | a new review starts with no like records and a zero likesCount, so every likesCount stays matched |
| ReviewController.InsertedReviewKeepsCounts | controllers/reviewController.js:100 | one new review and its author's count raised by one keep every count matched |
| ReviewController.InsertedReviewKeepsInvariant | controllers/reviewController.js:94-100 | a new review with its place's summary recomputed and its author's count raised keeps summaries, like counts and review counts matched |
| ReviewController.CreateReviewKeepsInvariant | controllers/reviewController.js:60-110 | creating a review keeps every rating summary, likesCount and reviewsCount equal to what the records give |
| ReviewController.UpdateReviewKeepsInvariant | controllers/reviewController.js:112-157 | updating a review keeps the invariant |
| ReviewController.DeleteReviewKeepsInvariant | controllers/reviewController.js:159-203 | deleting a review keeps the invariant |
| ReviewController.LikesCountMovesNothingElse | controllers/reviewController.js:237 | a likesCount update leaves every rating summary and every review count matched |
| ReviewController.LikesAfterMove | controllers/reviewController.js:231-237 | moving one review's likesCount with its like records keeps every likesCount matched |
| ReviewController.LikeReviewKeepsInvariant | controllers/reviewController.js:205-247 | liking a review keeps the invariant |
| ReviewController.UnlikeReviewKeepsInvariant | controllers/reviewController.js:249-275 | unliking a review keeps the invariant |
| ReviewController.CreateReviewEffects | controllers/reviewController.js:60-110 | 404 exactly for a missing place, 409 exactly when the caller already reviewed it, 201 otherwise; the new review is stored under a fresh id with zero likes, the place's summary counts one more review and one more rating, and the author's reviewsCount rises by one; a refusal changes nothing |
| ReviewController.UpdateReviewEffects | controllers/reviewController.js:112-157 | 404 exactly for a missing review, 403 exactly for another user's, success otherwise; the given rating and text replace the old ones and the place's summary is recomputed; a refusal changes nothing |
| ReviewController.DeleteReviewEffects | controllers/reviewController.js:159-203 | 404 exactly for a missing review, 403 exactly for another user's; otherwise the review is removed, its place's summary counts one fewer, and the author's count drops by one |
| ReviewController.LikeReviewEffects | controllers/reviewController.js:205-247 | 404 exactly for a missing review, 409 exactly for an existing like; otherwise exactly the caller's like is added and likesCount rises by one |
| ReviewController.UnlikeReviewEffects | controllers/reviewController.js:249-275 | success exactly when the caller's like exists, even for a deleted review; it is removed and a remaining review's likesCount drops by one; otherwise 404 and nothing changes |
| ReviewController.CreateReview | controllers/reviewController.js:60-110 | `createReview` changes places, reviews and users exactly as the step |
| ReviewController.UpdateReview | controllers/reviewController.js:112-157 | `updateReview` changes places and reviews exactly as the step |
| ReviewController.DeleteReview | controllers/reviewController.js:159-203 | `deleteReview` changes places, reviews and users exactly as the step |
| ReviewController.LikeReview | controllers/reviewController.js:205-247 | `likeReview` changes reviews and likes exactly as the step |
| ReviewController.UnlikeReview | controllers/reviewController.js:249-275 | `unlikeReview` changes reviews and likes exactly as the step |
| FriendController.FriendViews | controllers/friendController.js:224-240 | at most one entry per friendship, and a view is listed exactly when some friendship names an existing user with those public fields |
| FriendController.AddPendingKeepsInvariant | controllers/friendController.js:54-55 | a new pending request between two distinct users who are not friends and have nothing pending keeps the friend graph valid |
| FriendController.SendKeepsInvariant | controllers/friendController.js:6-77 | sending keeps friendships mirrored between distinct users, no pending request between friends, and at most one pending request per pair |
| FriendController.AcceptKeepsInvariant | controllers/friendController.js:79-139 | accepting keeps the friend graph valid |
| FriendController.DeclineKeepsInvariant | controllers/friendController.js:141-187 | declining keeps the friend graph valid |
| FriendController.RemoveKeepsInvariant | controllers/friendController.js:189-215 | removing a friend keeps the friend graph valid |
| FriendController.SendEffects | controllers/friendController.js:6-77 | 400 exactly for oneself, 404 exactly for an unknown user; success exactly when the two are not friends, nothing is pending between them and no request in that direction is stored; success stores one pending request and notifies its recipient with the sender and request ids; a refusal changes nothing |
| FriendController.AcceptEffects | controllers/friendController.js:79-139 | success exactly for a pending request addressed to the caller; it is then marked accepted, the two are friends both ways and the sender is notified; otherwise 404, 403 or 400 and nothing changes |
| FriendController.DeclineEffects | controllers/friendController.js:141-187 | success exactly for a pending request addressed to the caller, which is then marked declined; nothing else changes |
| FriendController.RemoveEffects | controllers/friendController.js:189-215 | success exactly for a friend; afterwards the two are friends in neither direction and every other friendship is kept |
| FriendController.AnsweredRequestBlocksResend | controllers/friendController.js:44-55 | once a request is answered, sending another in the same direction always fails with 409 DUPLICATE_KEY on the unique (from, to) index, even after the friendship ends |
| FriendController.GetFriendsSpec | controllers/friendController.js:217-246 | the listing holds exactly the existing users the caller is friends with |
| FriendController.GetIncomingOrder | controllers/friendController.js:248-282 | the incoming listing holds pending requests only, newest first |
| FriendController.GetIncomingIds | controllers/friendController.js:248-282 | the incoming listing names exactly the pending requests addressed to the caller |
| FriendController.SendFriendRequest | controllers/friendController.js:6-77 | `sendFriendRequest` changes requests and notifications exactly as the step |
| FriendController.AcceptFriendRequest | controllers/friendController.js:79-139 | `acceptFriendRequest` changes requests, friendships and notifications exactly as the step |
| FriendController.DeclineFriendRequest | controllers/friendController.js:141-187 | `declineFriendRequest` changes the requests exactly as the step |
| FriendController.RemoveFriend | controllers/friendController.js:189-215 | `removeFriend` changes the friendships exactly as the step |
| SessionController.PutKeepsInvariant | controllers/sessionController.js:266-277 | rewriting one session's counters and putting one of its participant records keeps the roster valid when that session's counters agree with its new records |
| SessionController.RemoveKeepsInvariant | controllers/sessionController.js:393-409 | rewriting one session's counters and removing one of its records keeps the roster valid when that session's counters agree with what remains |
| SessionController.CreateSessionKeepsInvariant | controllers/sessionController.js:8-37 | a new session with its creator as the one accepted participant keeps every session's counters equal to its records and within capacity (maxPeople at least 2, as validation demands) |
| SessionController.CreateSessionEffects | controllers/sessionController.js:8-37 | create answers 201, stores the session under a fresh id with the creator's accepted record beside it, and counts one more created session for the creator |
| SessionController.JoinWritesKeepInvariant | controllers/sessionController.js:185-196 | a pending record added to an open session with participantsCount raised by one keeps the roster valid |
| SessionController.JoinPutFacts | controllers/sessionController.js:185-196 | after join's writes the session's counters agree with its records |
| SessionController.JoinKeepsInvariant | controllers/sessionController.js:149-217 | joining keeps every session's counters equal to its records and within capacity |
| SessionController.JoinEffects | controllers/sessionController.js:149-217 | join succeeds exactly for an open session and a caller without a record; a full or cancelled session is 400 SESSION_NOT_AVAILABLE; success adds one pending record, raises participantsCount by one, keeps acceptedCount and notifies the creator; a refusal changes nothing |
| SessionController.AcceptWritesKeepInvariant | controllers/sessionController.js:266-277 | a pending record of an open session below capacity made accepted, with acceptedCount raised and the status full at capacity, keeps the roster valid |
| SessionController.AcceptPutFacts | controllers/sessionController.js:266-277 | after accept's writes the session's counters agree with its records |
| SessionController.AcceptKeepsInvariant | controllers/sessionController.js:219-298 | the corrected accept keeps every session's counters equal to its records and within capacity |
| SessionController.AcceptEffects | controllers/sessionController.js:219-298 | the corrected accept succeeds exactly for the creator, a pending record and an open session; the record becomes accepted, acceptedCount rises by one, the session is full exactly when that reaches maxPeople, and the accepted user is notified; a refusal changes nothing |
| SessionController.DeclineWritesKeepInvariant | controllers/sessionController.js:338-343 | a pending record made declined with participantsCount lowered by one keeps the roster valid |
| SessionController.DeclinePutFacts | controllers/sessionController.js:338-343 | after decline's writes the session's counters agree with its records |
| SessionController.DeclineKeepsInvariant | controllers/sessionController.js:300-353 | the corrected decline keeps the roster valid |
| SessionController.DeclineEffects | controllers/sessionController.js:300-353 | the corrected decline succeeds exactly for the creator and a pending record, which becomes declined with one participant fewer and acceptedCount kept |
| SessionController.LeaveRemoveFacts | controllers/sessionController.js:393-409 | after leave's writes the session's counters agree with the remaining records and stay within capacity |
| SessionController.LeaveKeepsInvariant | controllers/sessionController.js:355-419 | the corrected leave keeps the roster valid |
| SessionController.LeaveEffects | controllers/sessionController.js:355-419 | the creator is refused 400; anyone else with a record leaves, the record is gone, and an accepted member leaving a full session opens it again; a refusal changes nothing |
| SessionController.CancelKeepsInvariant | controllers/sessionController.js:421-477 | cancelling changes only the status and keeps the roster valid |
| SessionController.CancelEffects | controllers/sessionController.js:421-477 | cancel succeeds exactly for the creator; the session becomes cancelled, the records stay, and each recipient gets one cancellation notification, in order, under fresh ids |
| SessionController.SaveAndInviteGuards | controllers/sessionController.js:479-604 | save succeeds exactly for an existing session not yet saved and adds that record; unsave succeeds exactly when the record exists and removes only it; invite succeeds exactly for the creator inviting a friend and notifies that friend; refusals change nothing |
| SessionController.DeclineAsWrittenBreaksCounts | controllers/sessionController.js:317-343 | as written, declining a record that is not pending succeeds and leaves the session's counters disagreeing with its records |
| SessionController.LeaveAsWrittenBreaksCounts | controllers/sessionController.js:393-409 | as written, leaving with a declined record succeeds and lowers participantsCount a second time |
| SessionController.AcceptAsWrittenOvershoots | controllers/sessionController.js:256-277 | as written, accepting a pending request of a full session succeeds and makes acceptedCount maxPeople plus one |
| SessionController.OverbookingExample | controllers/sessionController.js:219-298 | a session for 2 with two join requests: as written both accepts succeed and leave 3 accepted; the corrected accept refuses the second |
| SessionController.CreateSession | controllers/sessionController.js:8-37 | `createSession` changes sessions, participants and users exactly as the step |
| SessionController.JoinSession | controllers/sessionController.js:149-217 | `joinSession` changes sessions, participants and notifications exactly as the step |
| SessionController.AcceptParticipant | controllers/sessionController.js:219-298 | `acceptParticipant` changes the tables exactly as the corrected step |
| SessionController.DeclineParticipant | controllers/sessionController.js:300-353 | `declineParticipant` changes the tables exactly as the corrected step |
| SessionController.LeaveSession | controllers/sessionController.js:355-419 | `leaveSession` changes the tables exactly as the corrected step |
| SessionController.Without | controllers/sessionController.js:453-455 | the recipients without the creator: every listed user but the creator, each still once |
| SessionController.CancelSession | controllers/sessionController.js:421-477 | `cancelSession` changes sessions and notifications exactly as the step, notifying every user with a record except the creator, each once |
| SessionController.SaveSession | controllers/sessionController.js:479-519 | `saveSession` changes the saved records exactly as the step |
| SessionController.UnsaveSession | controllers/sessionController.js:521-545 | `unsaveSession` changes the saved records exactly as the step |
| SessionController.InviteFriend | controllers/sessionController.js:547-604 | `inviteFriend` changes the notifications exactly as the step |
| BlockController.BlockEffects | controllers/blockController.js:4-38 | 400 exactly for the caller's own id, 409 exactly for an existing block, success otherwise; success adds exactly that block, after which the two are blocked both ways and the user is on the caller's blocked list; a refusal changes nothing; NoSelfBlock is kept (ids compared as ObjectIds, see "## Left out") |
| BlockController.UnblockEffects | controllers/blockController.js:40-64 | success exactly when the caller's block exists, removing just it; the two then stay blocked only if the other user blocks the caller; otherwise 404 and nothing changes |
| BlockController.ReportEffects | controllers/blockController.js:66-86 | a report is answered 201 and stored under a fresh id with the caller as reporter and the given target and reason |
| BlockController.BlockUser | controllers/blockController.js:4-38 | `blockUser` changes the blocks exactly as the step and keeps them valid |
| BlockController.UnblockUser | controllers/blockController.js:40-64 | `unblockUser` changes the blocks exactly as the step |
| BlockController.CreateReport | controllers/blockController.js:66-86 | `createReport` changes the reports exactly as the step |
| AuthController.RegisterEffects | controllers/authController.js:5-56 | 409 EMAIL_EXISTS exactly for a taken e-mail, then 409 USERNAME_EXISTS exactly for a taken username, nothing created on either; otherwise 201 and exactly one new account with the given e-mail, username and hash, the default display name when none is given, zero counters, findable by its e-mail, and a reply that is the stored record minus its hash |
| AuthController.LoginEffects | controllers/authController.js:58-99 | success exactly for a known e-mail whose hash accepts the password, replying with that account minus its hash; every failure is the same 401 INVALID_CREDENTIALS |
| AuthController.UpdateMeEffects | controllers/authController.js:116-144 | each supplied field is set and every other field kept; e-mail, username, hash, counters, ban and push token never change; other accounts are untouched; the reply is the updated record minus its hash; 500 when the caller's record is gone |
| AuthController.UpdatePushTokenEffects | controllers/authController.js:146-162 | always 200; sets the caller's token (null when none is given) and update time, and nothing else |
| AuthController.Register | controllers/authController.js:5-56 | `register` changes the users exactly as the step and keeps the table valid |
| AuthController.Login | controllers/authController.js:58-99 | `login` replies exactly as the step and changes nothing |
| AuthController.GetMe | controllers/authController.js:101-114 | 200 with a view that determines every field of the caller's record except the password hash |
| AuthController.WithoutPasswordHidesOnlyHashAll | controllers/authController.js:104 | two accounts have the same public view exactly when they differ at most in the hash |
| AuthController.UpdateMe | controllers/authController.js:116-144 | `updateMe` changes the users exactly as the step |
| AuthController.UpdatePushToken | controllers/authController.js:146-162 | `updatePushToken` changes the users exactly as the step |
| SavedController.TypeFilter | controllers/savedController.js:9-11 | a missing or empty type lists every type; "place", "promo" and "session" select exactly their own type |
| SavedController.Origins | controllers/savedController.js:23-34 | each pushed entry comes from its own record, in the records' order, and every record whose target is found is pushed |
| SavedController.SelectMembers | controllers/savedController.js:23-34 | a target is in a list exactly when some record of the page leads to it |
| SavedController.PromoIdsNameOne | models/Saved.js:13 | distinct promos have distinct object ids, so a saved record's object id names at most one promo |
| SavedController.PromosByOid | models/Promo.js:74-77 | the lookup by object id finds every promo under its own id and nothing else |
| SavedController.NoneSelected | controllers/savedController.js:23-34 | a list stays empty when no record of the page leads to a target of its kind |
| SavedController.GroupedCount | controllers/savedController.js:23-34 | the three lists together hold at most one entry per saved record |
| SavedController.GroupedComplete | controllers/savedController.js:23-34 | every record whose target exists puts that target in the list of its type |
| SavedController.SavedPromosNeverShownAsWritten | controllers/savedController.js:27-29 | as written, the promo list is empty whenever the saved promo records hold object ids, which they always do |
| SavedController.SavedPromoLostAsWritten | controllers/savedController.js:27-29 | a single saved record of an existing promo: the handler as written returns no promo, the lookup by object id returns it |
| SavedController.EdgeKeyed | models/Saved.js:6-19 | a stored saved record is stored under its own (user, type, target) key |
| SavedController.GetSavedContentSpec | controllers/savedController.js:6-42 | the store's refusal (500 with its numeric code) exactly for a negative skip; otherwise each list holds only existing targets the caller saved with that list's type, at most `limit` in all, and a type filter empties the other lists |
| SavedController.GetSavedContentShowsPage | controllers/savedController.js:11-36 | every record on the `findUserSaved` page whose target exists puts that target in its type's list, so with EdgeModel.FindUserEdgesListsEachOnce paging shows every existing saved target |
| SavedController.SavedPlaces | controllers/savedController.js:24-26 | the place list holds only existing places the caller saved, and is empty under another type filter |
| SavedController.SavedPromos | controllers/savedController.js:27-29 | the promo list (looked up by object id) holds only existing promos the caller saved, and is empty under another type filter |
| SavedController.SavedSessions | controllers/savedController.js:30-32 | the session list holds only existing sessions the caller saved, and is empty under another type filter |
| SavedController.GroupSaved | controllers/savedController.js:17-34 | the loop over the page's records builds exactly the grouped lists, looking promos up by object id |
| Validation.Check | middleware/validation.js:26 | one check adds no error exactly when it holds |
| Validation.UsernamePatternChars | middleware/validation.js:29 | the pattern `^[a-zA-Z0-9_]+$` matches exactly the non-empty strings of letters, digits and underscores |
| Validation.HexRunChars | middleware/validation.js:75 | `[0-9a-fA-F]{n}` anchored matches exactly the strings of n hexadecimal digits |
| Validation.NatText | middleware/validation.js:40 | the decimal text of a number is non-empty and unsigned |
| Validation.DigitsOfNatText | middleware/validation.js:40 | the digit run of a number's decimal text reads back as that number |
| Validation.IntValueOfIntText | middleware/validation.js:40 | `isInt` accepts every integer's decimal text and reads it back as that integer |
| Validation.Optional | middleware/validation.js:30 | an `optional()` chain adds no error exactly when the field is missing or passes |
| Validation.RegisterErrors | middleware/validation.js:25-31 | a registration passes exactly with a valid e-mail, a password of 8 or more characters, a username of 3 to 30 letters, digits and underscores, and a display name, if given, of at most 50 characters |
| Validation.UsernameErrors | middleware/validation.js:28-29 | the username chain passes exactly for 3 to 30 word characters |
| Validation.LoginErrors | middleware/validation.js:33-36 | a login passes exactly with a valid e-mail and a non-empty password |
| Validation.CreateReviewErrors | middleware/validation.js:39-42 | a review passes exactly with an integer rating from 1 to 5 and a text, if given, of at most 500 characters |
| Validation.CreateSessionErrors | middleware/validation.js:45-50 | a session passes exactly with a title of 1 to 100 characters, a course, if given, of at most 50, an integer maxPeople from 2 to 10 and a non-empty placeId |
| Validation.UpdateUserErrors | middleware/validation.js:53-57 | a profile update passes exactly when each given field is within 50 (display name), 200 (bio) or 100 (school) characters |
| Validation.CreatePromoErrors | middleware/validation.js:60-71 | a promo passes exactly with a title of 1 to 100 characters, a placeId, two ISO 8601 dates, and an end strictly after the start whenever both dates parse |
| Validation.ObjectIdErrors | middleware/validation.js:74-76 | an id parameter passes exactly when it is 24 hexadecimal digits |
| Validation.PaginationErrors | middleware/validation.js:79-82 | pagination passes exactly with a page, if given, that is an integer of at least 1 and a limit, if given, that is an integer from 1 to 100 |
| Validation.Validate | middleware/validation.js:3-20 | the request goes on exactly when no check failed; otherwise 400 VALIDATION_ERROR listing every failure |
| Validation.RatingsAccepted | middleware/validation.js:40 | each rating 1 to 5 written plainly passes review validation |
| Validation.SkipOfPositives | models/Place.js:81-82 | a page and limit of at least 1 give a non-negative skip |
| Validation.PaginationKeepsSkip | middleware/validation.js:79-82 | after pagination passes, the skip a listing computes from the query is never negative |
| ErrorHandler.Handle | middleware/errorHandler.js:1-51 | a duplicate-key error is always 409 DUPLICATE_KEY; otherwise the two token error names give 401 and a validation error 400; any other error keeps its own status and code, 500 and INTERNAL_ERROR replacing missing ones |
| ErrorHandler.HandlerReplies | middleware/errorHandler.js:5-50 | an insert refused by a unique index is answered 409 DUPLICATE_KEY, a plain thrown error 500 INTERNAL_ERROR, and the store's refusal of a negative skip (numeric code, no status) 500 with that code: the three replies the handler steps use |
| ErrorHandler.HandlerStatus | middleware/errorHandler.js:1-51 | every status is one of 400, 401, 409, 500 or the error's own |
| AuthMiddleware.Authenticate | middleware/auth.js:4-60 | each refusal (401 UNAUTHORIZED, 401 INVALID_TOKEN, 500 AUTH_ERROR, 401 USER_NOT_FOUND, 403 ACCOUNT_BANNED) happens exactly when its check is the first that fails; the request goes on exactly when all pass, carrying the stored, unbanned user |
| AuthMiddleware.BearerToken | middleware/auth.js:8-20 | a "Bearer t" header is judged on `t` alone and admitted exactly when `t` verifies to the id of a stored unbanned user |
| AuthMiddleware.NoBearerNoToken | middleware/auth.js:8-13 | a header without the "Bearer " prefix is refused 401 whatever the token verifier says |
| AuthMiddleware.OwnerOnly | middleware/auth.js:62-78 | the request goes on exactly when the resource's owner equals the caller; otherwise 403 FORBIDDEN |
| UserController.SanitizedHit | controllers/userController.js:22-27 | the summary kept from a matching user's public view is that user's summary |
| UserController.SearchSpec | controllers/userController.js:5-34 | 400 INVALID_QUERY exactly for a missing or one-character query; otherwise 200 with as many results as there are matching users up to 20, each the summary of a user whose username or display name matches, and every matching user when there are at most 20 |
| UserController.SearchFindsEveryHit | controllers/userController.js:18-25 | with a valid query and at most 20 matching users, every matching user's summary is in the 200 reply |
| UserController.GetUserById | controllers/userController.js:36-86 | 404 exactly for an unknown id; the profile holds the user's public fields, isFriend exactly when a friendship exists, and "sent"/"received" exactly when a pending request between the two exists, naming its direction |

## Left out

- Input and output. Not modelled: the MongoDB driver and connection, the Express routing (`routes/*.js`), `index.js` and `scripts/seed.js`. Only the unique indexes of `config/database.js` are kept, as the table keys.
- Replies keep only the HTTP status and the error code. Messages and JSON envelopes are not modelled, and neither is the `meta` object beyond page, limit and total.
- Concurrency. Each request is one atomic step. Not modelled:
  - races between concurrent requests, such as two accepts of the same session;
  - the order in which `Promise.all` completes.
  The cancellation notices are inserted in recipient order.
- Hashing, password comparison, token signing and token verification are parameters, because they are library calls:
  - `Register` takes the hash as an input;
  - `Login` takes `comparePassword`;
  - `Authenticate` takes `verifyToken`, which yields the token's user id claim, and `parseOid`.
  The signed token sent by register and login is not part of the modelled reply.
- `isEmail`, `isISO8601` and JavaScript `Date` parsing are parameters of the validators, because they are library code.
- Regular expressions:
  - The anchored username pattern and the anchored ObjectId pattern are modelled character by character.
  - The case-insensitive searches of `searchUsers`, `findPlaces` and `findSessions` are a `matches` predicate parameter.
- Timestamps are integers supplied by the caller. ObjectIds are `Oid(n)`, handed out by each table's counter.
  - Not modelled: converting between ObjectId and string, and the 500 a malformed id string causes inside a handler. No route applies the ObjectId validator (middleware/validation.js:74-76 is unused in `routes/*.js`), so a malformed id in any `:id` path reaches the handler and the ObjectId constructor throws, answered 500. The authentication ladder models this 500 as `AUTH_ERROR`.
- A request field is a string or absent. Not modelled:
  - JSON numbers, booleans and arrays where the validators expect strings;
  - an explicit JSON `null`, which is treated like an absent field.
- Sort order among equal keys is left unspecified, as MongoDB leaves it without a tie-breaker. The listings are stated up to that order.
- `getSessions` and `getSessionById` (controllers/sessionController.js:39-147) are read-only listings. Their query is `StudySessionModel.FindSessions`. The per-session lookup of the creator's summary that they add is not modelled.
- BlockController.BlockEffects: ids are compared as ObjectIds. The source compares the path text with the caller's id string (controllers/blockController.js:7-9). The ObjectId constructor also accepts upper-case hexadecimal, so the caller's own id written in upper case passes that test and the caller blocks themself. `NoSelfBlock` therefore holds in the source only for ids written in canonical lower case.
- FriendController.SendEffects: the same holds for the self-request guard (controllers/friendController.js:9-12). An upper-case spelling of the caller's own id passes it. `FriendGraphValid`'s "two distinct users" then holds in the source only for lower-case ids.
- Route order: routes/blocks.js:6 registers `POST /:userId` before `POST /reports` (line 8). So `POST /blocks/reports` reaches `blockUser`, whose `new ObjectId('reports')` throws, answered 500, and `createReport` cannot be reached through the routes. `BlockController.CreateReport` models the handler as written.
- Negative skip: `getPlaceReviews` and `getSavedContent` have no pagination validator (routes/reviews.js:7, routes/saved.js:6), so `page=-1` reaches the store. The store refuses it with a MongoServerError that carries a numeric code and no status. The error handler answers 500 with that code (middleware/errorHandler.js:45-50). The model uses 51024, the MongoDB server's code for this error, as `NegativeSkipCode`. The code's value is not in the repository; only its being a nonzero number other than 11000 shapes the reply.
- `controllers/notificationController.js` is not part of this model. It only passes requests through to the notification model functions, which are modelled.
- `utils/jwt.js` and the password helpers are not part of this model; see the hashing item above.
- PromoModel.InsertPromo: promos are keyed by their `promoId` string, and an insert with a `promoId` already stored is refused as a duplicate key. The source has no unique index on `promoId` (config/database.js:52 indexes `placeId`, not uniquely), so two promos with the same `promoId` can coexist there. `findPromoById` would then return one of them.
- PromoController.PromoIdsDistinct: the promo counter invariant assumes that promo object ids are distinct. MongoDB guarantees this with the `_id` index.
- ReviewModel.RoundedTenths: the average in `getPlaceRatingSummary` is kept as an integer number of tenths, the nearest integer to 10 times the exact mean with halves rounded up. Floating-point `$avg` and `Math.round` are not modelled.
- Aggregations.AddPersonalizationFlagsAsWritten: `utils/aggregations.js` is not called by any handler in the repository. The place and promo handlers compute the same flags inline, which `Aggregations.PersonalFlags` models.
- Deleting a review leaves its like records in place, as the source does. The model's like-count invariant covers only reviews that still exist.

## Findings

| source | as written | input that shows it | evidently intended | confidence | as-written member | corrected member |
|---|---|---|---|---|---|---|
| controllers/sessionController.js:317-343 | `declineParticipant` checks only the creator and that a record exists, then sets it declined and lowers `participantsCount` by one | decline an accepted member, or decline the same user twice: `participantsCount` (and `acceptedCount` for an accepted member) no longer match the records | decline only a pending request and answer INVALID_STATUS otherwise, as `acceptParticipant` does | not executed | SessionController.DeclineAsWrittenBreaksCounts | SessionController.DeclineKeepsInvariant |
| controllers/sessionController.js:393-409 | `leaveSession` lowers `participantsCount` for any leaver | a user whose request was declined calls leave: the count drops a second time and falls below the records | leave `participantsCount` alone for a declined record, which decline already took out | not executed | SessionController.LeaveAsWrittenBreaksCounts | SessionController.LeaveKeepsInvariant |
| controllers/sessionController.js:256-277 | `acceptParticipant` checks neither the session's status nor its capacity | a session for 2, two join requests, two accepts: the second accept succeeds on a full session and leaves 3 accepted | refuse a session that is not open or already has `maxPeople` accepted, as join does (400 SESSION_NOT_AVAILABLE) | not executed | SessionController.OverbookingExample | SessionController.AcceptKeepsInvariant |
| models/User.js:20-21 | `wifi` and `outlets` default with `x \|\| true` | preferences `{wifi: false, outlets: false}` are stored as true | keep a supplied boolean and default only an absent one to true | not executed | UserModel.ExplicitFalseLostAsWritten | UserModel.StoredPreferencesKeepsBooleans |
| utils/aggregations.js:15-22 | the target type is guessed from the first item's fields, and an item's id is its `_id` before its `placeId` | a promo carries a `placeId`, so its likes are looked up as 'place' likes and a liked promo is shown unliked; a place has an `_id`, but place likes hold its `placeId`, so a liked place is shown unliked | look each item up under its own type and the key its like records hold, as the place and promo handlers do | not executed | Aggregations.LikedPromoShownUnliked | Aggregations.PersonalFlagsSpec |
| controllers/savedController.js:27-29 | a saved promo is looked up with `findPromoById`, which matches the `promoId` string | saved promo records hold the promo's ObjectId (models/Saved.js:13), so one saved record of an existing promo gives an empty promo list | look the promo up by its object id | not executed | SavedController.SavedPromoLostAsWritten | SavedController.GetSavedContentSpec |
