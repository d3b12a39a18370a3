/**
 * The nested review and comment endpoints: `/titles/{title_id}/reviews/…` and
 * `/titles/{title_id}/reviews/{review_id}/comments/…`. Listings are scoped to the parent named in
 * the route; creation sets the author to the caller and the parent from the route.
 */
module ReviewsViews {
  import opened Wrappers
  import opened Errors
  import opened UsersModels
  import opened ReviewsModels
  import opened Permissions
  import opened Serializers
  import opened Store

  /** `ReviewViewSet.get_queryset`: 404 for an unknown title, else that title's reviews. */
  function ReviewsOfTitle(db: Tables, titleId: nat): Result<set<ReviewId>, ApiError> {
    if titleId !in db.titles then Failure(NotFound)
    else Success(set k | k in db.reviews && db.reviews[k].title == titleId)
  }

  /**
   * `CommentViewSet.get_queryset`: 404 for an unknown review, else that review's comments. The
   * `title_id` of the route plays no part: neither the outcome nor the listing mentions it.
   */
  function CommentsOfReview(db: Tables, titleId: nat, reviewId: nat): Result<set<CommentId>, ApiError> {
    if reviewId !in db.reviews then Failure(NotFound)
    else Success(set k | k in db.comments && db.comments[k].review == reviewId)
  }

  /**
   * The title listings partition the reviews: an unknown title answers 404, every review appears
   * in the listing of its own title, and no review appears under two titles.
   */
  lemma ReviewListingsPartition(db: Tables, t1: nat, t2: nat, k: ReviewId)
    requires ReferencesResolve(db)
    ensures ReviewsOfTitle(db, t1) == Failure(NotFound) <==> t1 !in db.titles
    ensures k in db.reviews ==>
      var own := ReviewsOfTitle(db, db.reviews[k].title);
      own.Success? && k in own.value
    ensures t1 != t2 && ReviewsOfTitle(db, t1).Success? && ReviewsOfTitle(db, t2).Success? ==>
      ReviewsOfTitle(db, t1).value !! ReviewsOfTitle(db, t2).value
  {
  }

  /**
   * The review listings partition the comments: an unknown review answers 404, every comment
   * appears in the listing of its own review under any title, and no comment appears under two
   * reviews.
   */
  lemma CommentListingsPartition(db: Tables, t: nat, r1: nat, r2: nat, k: CommentId)
    requires ReferencesResolve(db)
    ensures CommentsOfReview(db, t, r1) == Failure(NotFound) <==> r1 !in db.reviews
    ensures k in db.comments ==>
      var own := CommentsOfReview(db, t, db.comments[k].review);
      own.Success? && k in own.value
    ensures r1 != r2 && CommentsOfReview(db, t, r1).Success? && CommentsOfReview(db, t, r2).Success? ==>
      CommentsOfReview(db, t, r1).value !! CommentsOfReview(db, t, r2).value
  {
  }

  /**
   * A comment route whose `review_id` belongs to another title still lists that review's comments:
   * the pairing of title and review in the route is never checked.
   */
  lemma CommentRoutesIgnoreTitle(db: Tables, t1: nat, t2: nat, rv: ReviewId)
    requires ReferencesResolve(db) && rv in db.reviews && db.reviews[rv].title == t1 && t2 != t1
    ensures CommentsOfReview(db, t2, rv).Success?
    ensures CommentsOfReview(db, t2, rv) == CommentsOfReview(db, t1, rv)
    ensures ReviewsOfTitle(db, t1).Success? && rv in ReviewsOfTitle(db, t1).value
    ensures ReviewsOfTitle(db, t2).Success? ==> rv !in ReviewsOfTitle(db, t2).value
  {
  }

  /** The review a detail route names: it must exist and belong to the route's title. */
  function FindReview(db: Tables, titleId: nat, reviewId: nat): (r: Option<ReviewId>)
    requires ReferencesResolve(db)
    ensures r.Some? <==> ReviewsOfTitle(db, titleId).Success? && reviewId in ReviewsOfTitle(db, titleId).value
    ensures r.Some? ==> r.value == reviewId
  {
    if reviewId in db.reviews && db.reviews[reviewId].title == titleId then Some(reviewId) else None
  }

  /** The comment a detail route names: it must exist and belong to the route's review. */
  function FindComment(db: Tables, titleId: nat, reviewId: nat, commentId: nat): (r: Option<CommentId>)
    ensures r.Some? <==> CommentsOfReview(db, titleId, reviewId).Success? && commentId in CommentsOfReview(db, titleId, reviewId).value
    ensures r.Some? ==> r.value == commentId
  {
    if reviewId in db.reviews && commentId in db.comments && db.comments[commentId].review == reviewId
    then Some(commentId) else None
  }

  /**
   * POST `/titles/{title_id}/reviews/`: the collection permission (401 for an anonymous caller),
   * then `ReviewSerializer` validation, then `perform_create` with the caller as author and the
   * route's title.
   */
  method CreateReview(db: Database, caller: Option<UserId>, titleId: nat, score: Option<int>, text: Option<string>)
    returns (r: Result<ReviewId, ApiError>)
    requires db.Valid()
    modifies db
    ensures db.Valid()
    ensures var p := PrincipalOf(old(db.users), caller);
      && (!p.Member? ==> r == Failure(NotAuthenticated) && db.Snapshot() == old(db.Snapshot()))
      && (p.Member? ==>
            var v := ValidateReview(old(db.Snapshot()), p.id, titleId, score, text);
            && (v.Failure? ==> r == Failure(v.error) && db.Snapshot() == old(db.Snapshot()))
            && (v.Success? ==>
                  r == Success(old(db.nextId)) && old(db.nextId) !in old(db.reviews)
                  && db.Snapshot() == old(db.Snapshot()).(reviews := old(db.reviews)[old(db.nextId) := v.value])))
  {
    var p := PrincipalOf(db.users, caller);
    if !IsAuthenticatedOrReadOnly(Post, p) {
      return Failure(Denied(p));
    }
    var v := ValidateReview(db.Snapshot(), p.id, titleId, score, text);
    if v.Failure? {
      return Failure(v.error);
    }
    var id := db.InsertReview(v.value);
    r := Success(id);
  }

  /**
   * POST `…/reviews/{review_id}/comments/`: the collection permission, then `CommentSerializer`
   * validation (400), then `perform_create`, whose review lookup answers 404. The route's title
   * is never consulted.
   */
  method CreateComment(db: Database, caller: Option<UserId>, titleId: nat, reviewId: nat, text: Option<string>)
    returns (r: Result<CommentId, ApiError>)
    requires db.Valid()
    modifies db
    ensures db.Valid()
    ensures var p := PrincipalOf(old(db.users), caller);
      && (!p.Member? ==> r == Failure(NotAuthenticated) && db.Snapshot() == old(db.Snapshot()))
      && (p.Member? && !Present(text) ==> r == Failure(Invalid({TextField})) && db.Snapshot() == old(db.Snapshot()))
      && (p.Member? && Present(text) && reviewId !in old(db.reviews) ==>
            r == Failure(NotFound) && db.Snapshot() == old(db.Snapshot()))
      && (p.Member? && Present(text) && reviewId in old(db.reviews) ==>
            r == Success(old(db.nextId)) && old(db.nextId) !in old(db.comments)
            && db.Snapshot() == old(db.Snapshot()).(comments := old(db.comments)[old(db.nextId) := Comment(p.id, reviewId, text.value)]))
  {
    var p := PrincipalOf(db.users, caller);
    if !IsAuthenticatedOrReadOnly(Post, p) {
      return Failure(Denied(p));
    }
    var v := ValidateComment(text);
    if v.Failure? {
      return Failure(v.error);
    }
    if reviewId !in db.reviews {
      return Failure(NotFound);
    }
    var id := db.InsertComment(Comment(p.id, reviewId, v.value));
    r := Success(id);
  }

  /**
   * DELETE `/titles/{title_id}/reviews/{review_id}/`: the collection permission (401), the scoped
   * lookup (404), the object permission (403), then the delete, which takes the review's comments.
   */
  method DestroyReview(db: Database, caller: Option<UserId>, titleId: nat, reviewId: nat)
    returns (r: Result<(), ApiError>)
    requires db.Valid()
    modifies db
    ensures db.Valid()
    ensures var p := PrincipalOf(old(db.users), caller);
      var found := FindReview(old(db.Snapshot()), titleId, reviewId);
      && (!p.Member? ==> r == Failure(NotAuthenticated))
      && (p.Member? && found.None? ==> r == Failure(NotFound))
      && (p.Member? && found.Some? ==>
            var author := old(db.reviews)[reviewId].author;
            && (!AdminOrModeratorOrAuthorObject(Delete, p, author) ==> r == Failure(PermissionDenied))
            && (AdminOrModeratorOrAuthorObject(Delete, p, author) ==> r == Success(())))
    ensures r.Failure? ==> db.Snapshot() == old(db.Snapshot())
    ensures r.Success? ==> db.Snapshot() == DeleteReviewCascade(old(db.Snapshot()), reviewId)
  {
    var p := PrincipalOf(db.users, caller);
    if !IsAuthenticatedOrReadOnly(Delete, p) {
      return Failure(Denied(p));
    }
    var found := FindReview(db.Snapshot(), titleId, reviewId);
    if found.None? {
      return Failure(NotFound);
    }
    if !AdminOrModeratorOrAuthorObject(Delete, p, db.reviews[reviewId].author) {
      return Failure(Denied(p));
    }
    db.DeleteReview(reviewId);
    r := Success(());
  }

  /**
   * DELETE `…/reviews/{review_id}/comments/{comment_id}/`: as for a review, with the lookup
   * scoped to the route's review only.
   */
  method DestroyComment(db: Database, caller: Option<UserId>, titleId: nat, reviewId: nat, commentId: nat)
    returns (r: Result<(), ApiError>)
    requires db.Valid()
    modifies db
    ensures db.Valid()
    ensures var p := PrincipalOf(old(db.users), caller);
      var found := FindComment(old(db.Snapshot()), titleId, reviewId, commentId);
      && (!p.Member? ==> r == Failure(NotAuthenticated))
      && (p.Member? && found.None? ==> r == Failure(NotFound))
      && (p.Member? && found.Some? ==>
            var author := old(db.comments)[commentId].author;
            && (!AdminOrModeratorOrAuthorObject(Delete, p, author) ==> r == Failure(PermissionDenied))
            && (AdminOrModeratorOrAuthorObject(Delete, p, author) ==> r == Success(())))
    ensures r.Failure? ==> db.Snapshot() == old(db.Snapshot())
    ensures r.Success? ==> db.Snapshot() == DeleteCommentRow(old(db.Snapshot()), commentId)
  {
    var p := PrincipalOf(db.users, caller);
    if !IsAuthenticatedOrReadOnly(Delete, p) {
      return Failure(Denied(p));
    }
    var found := FindComment(db.Snapshot(), titleId, reviewId, commentId);
    if found.None? {
      return Failure(NotFound);
    }
    if !AdminOrModeratorOrAuthorObject(Delete, p, db.comments[commentId].author) {
      return Failure(Denied(p));
    }
    db.DeleteComment(commentId);
    r := Success(());
  }
}
