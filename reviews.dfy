/** Product reviews (app/api/v1/endpoints/reviews.py over
    app/crud/crud_review.py): a product check and an author-or-superuser
    rule in front of the store. */
module Reviews {
  import opened Common
  import Catalog

  /** A row of `reviews`, without its timestamp. */
  datatype Review = Review(id: nat, productId: int, userId: int, rating: int, comment: Option<string>)

  datatype ReviewCreate = ReviewCreate(productId: int, userId: int, rating: int, comment: Option<string>)

  /** `ReviewUpdate`: every field may be left out; the two keys may also be
      given as null. */
  datatype ReviewUpdate = ReviewUpdate(
    productId: Patch<Option<int>>, userId: Patch<Option<int>>, rating: Patch<int>, comment: Patch<Option<string>>)

  const PRODUCT_NOT_FOUND: string := "Product not found"
  const REVIEW_NOT_FOUND: string := "Review not found"
  const CREATE_FORBIDDEN: string := "Not authorized to create review for this user."
  const UPDATE_FORBIDDEN: string := "Not authorized to update this review"
  const DELETE_FORBIDDEN: string := "Not authorized to delete this review"

  /** `get_reviews(db, review_id)`: the position of the review with that id. */
  function ReviewIndex(reviews: seq<Review>, reviewId: int): (r: Option<nat>)
    ensures r.Some? ==> (r.value < |reviews| && reviews[r.value].id == reviewId)
    ensures r.None? <==> forall j :: 0 <= j < |reviews| ==> reviews[j].id != reviewId
  {
    FirstIndex(reviews, (rv: Review) => rv.id == reviewId)
  }

  /** The guard of `create_review`: 404 when `get_product` finds nothing (its
      id branch, where the as-written and the corrected lookup agree),
      then 403 unless the caller is a superuser or writes as themself. */
  function CreateGuard(products: seq<Catalog.Product>, caller: Caller, review: ReviewCreate): Outcome {
    if Catalog.GetProductIntended(products, Some(review.productId), None).None? then
      Fail(HttpError(404, PRODUCT_NOT_FOUND))
    else if !caller.isSuperuser && review.userId != caller.id then Fail(HttpError(403, CREATE_FORBIDDEN))
    else Pass
  }

  /** A review may be created exactly when its product exists and the caller
      is a superuser or its author; a missing product is 404 whoever asks. */
  lemma CreateGuardIff(products: seq<Catalog.Product>, caller: Caller, review: ReviewCreate)
    ensures CreateGuard(products, caller, review) == Pass <==>
      (exists i :: 0 <= i < |products| && products[i].id == review.productId)
      && (caller.isSuperuser || review.userId == caller.id)
    ensures (forall j :: 0 <= j < |products| ==> products[j].id != review.productId) ==>
      CreateGuard(products, caller, review) == Fail(HttpError(404, PRODUCT_NOT_FOUND))
    ensures CreateGuard(products, caller, review) != Pass ==>
      CreateGuard(products, caller, review).error.HttpError?
  {
    if exists i :: 0 <= i < |products| && products[i].id == review.productId {
      var i :| 0 <= i < |products| && products[i].id == review.productId;
      assert Catalog.ProductById(products, review.productId).Some?;
    }
  }

  /** The guard of update and delete: 404 for a missing review, then
      `forbidden` unless the caller is a superuser or the review's author. */
  function OwnerGuard(reviews: seq<Review>, caller: Caller, reviewId: int, forbidden: string): Result<nat> {
    match ReviewIndex(reviews, reviewId)
    case None => Err(HttpError(404, REVIEW_NOT_FOUND))
    case Some(i) =>
      if !caller.isSuperuser && reviews[i].userId != caller.id then Err(HttpError(403, forbidden))
      else Ok(i)
  }

  /** The guard lets in exactly a superuser or the author of an existing
      review, and a missing review is 404 before any permission check. */
  lemma OwnerGuardIff(reviews: seq<Review>, caller: Caller, reviewId: int, forbidden: string)
    ensures OwnerGuard(reviews, caller, reviewId, forbidden).Ok? <==>
      ReviewIndex(reviews, reviewId).Some?
      && (caller.isSuperuser || reviews[ReviewIndex(reviews, reviewId).value].userId == caller.id)
    ensures ReviewIndex(reviews, reviewId).None? ==>
      OwnerGuard(reviews, caller, reviewId, forbidden) == Err(HttpError(404, REVIEW_NOT_FOUND))
    ensures OwnerGuard(reviews, caller, reviewId, forbidden).Ok? ==>
      OwnerGuard(reviews, caller, reviewId, forbidden).value == ReviewIndex(reviews, reviewId).value
  {
  }

  /** Somebody else's review is refused to a caller who is not a superuser. */
  lemma StrangerIsRefused(reviews: seq<Review>, caller: Caller, i: nat, forbidden: string)
    requires i < |reviews| && !caller.isSuperuser && reviews[i].userId != caller.id
    requires forall j :: 0 <= j < |reviews| && j != i ==> reviews[j].id != reviews[i].id
    ensures OwnerGuard(reviews, caller, reviews[i].id, forbidden) == Err(HttpError(403, forbidden))
  {
    var k := ReviewIndex(reviews, reviews[i].id);
    assert k.Some?;
  }

  /** `read_review`: no caller; 404 for a missing review. */
  function ReadReview(reviews: seq<Review>, reviewId: int): (r: Result<Review>)
    ensures r.Ok? ==> r.value in reviews && r.value.id == reviewId
    ensures r.Err? <==> forall j :: 0 <= j < |reviews| ==> reviews[j].id != reviewId
    ensures r.Err? ==> r.error == HttpError(404, REVIEW_NOT_FOUND)
  {
    match ReviewIndex(reviews, reviewId)
    case None => Err(HttpError(404, REVIEW_NOT_FOUND))
    case Some(i) => Ok(reviews[i])
  }

  /** `get_reviews_by_product` behind `read_reviews_for_product`: no caller;
      the product's reviews in table order, then the window. */
  function ReviewsOfProduct(reviews: seq<Review>, productId: int): (r: seq<Review>)
    ensures forall k :: 0 <= k < |r| ==> r[k] in reviews && r[k].productId == productId
    ensures forall rv :: rv in reviews && rv.productId == productId ==> rv in r
  {
    if |reviews| == 0 then []
    else
      var last := reviews[|reviews| - 1];
      ReviewsOfProduct(reviews[..|reviews| - 1], productId) + (if last.productId == productId then [last] else [])
  }

  function ReadReviewsForProduct(reviews: seq<Review>, productId: int, skip: nat, limit: nat): (r: seq<Review>)
    ensures forall k :: 0 <= k < |r| ==> r[k] in reviews && r[k].productId == productId
    ensures |r| <= limit
    ensures forall k :: 0 <= k < |r| ==> skip + k < |ReviewsOfProduct(reviews, productId)| && r[k] == ReviewsOfProduct(reviews, productId)[skip + k]
    ensures skip + limit <= |ReviewsOfProduct(reviews, productId)| ==> |r| == limit
  {
    Window(ReviewsOfProduct(reviews, productId), skip, limit)
  }

  /** `setattr` over the given fields of a `ReviewUpdate`. */
  function Patched(rv: Review, upd: ReviewUpdate): Review {
    rv.(productId := ApplyValue(upd.productId, rv.productId),
        userId := ApplyValue(upd.userId, rv.userId),
        rating := upd.rating.Apply(rv.rating),
        comment := upd.comment.Apply(rv.comment))
  }

  /** The first NOT NULL column of `reviews`, in column order, that the
      update sets to null. */
  function NullColumn(upd: ReviewUpdate): Option<string> {
    if GivesNull(upd.productId) then Some("product_id")
    else if GivesNull(upd.userId) then Some("user_id")
    else None
  }

  /** What `update_review` evidently intends: the owner guard, then the
      patched review, which the commit refuses when it nulls a NOT NULL
      column. */
  function IntendedUpdate(reviews: seq<Review>, caller: Caller, reviewId: int, upd: ReviewUpdate): (r: Result<Review>)
    ensures r.Ok? <==>
      (OwnerGuard(reviews, caller, reviewId, UPDATE_FORBIDDEN).Ok? && !GivesNull(upd.productId) && !GivesNull(upd.userId))
    ensures OwnerGuard(reviews, caller, reviewId, UPDATE_FORBIDDEN).Err? ==>
      r == Err(OwnerGuard(reviews, caller, reviewId, UPDATE_FORBIDDEN).error)
    ensures OwnerGuard(reviews, caller, reviewId, UPDATE_FORBIDDEN).Ok? && GivesNull(upd.productId) ==>
      r == Err(IntegrityError("product_id"))
    ensures OwnerGuard(reviews, caller, reviewId, UPDATE_FORBIDDEN).Ok? && !GivesNull(upd.productId) && GivesNull(upd.userId) ==>
      r == Err(IntegrityError("user_id"))
    ensures r.Ok? ==> r.value.id == reviewId
  {
    match OwnerGuard(reviews, caller, reviewId, UPDATE_FORBIDDEN)
    case Err(e) => Err(e)
    case Ok(i) =>
      match NullColumn(upd)
      case Some(column) => Err(IntegrityError(column))
      case None => Ok(Patched(reviews[i], upd))
  }

  /** The author of an existing review is let through by the intended
      update (up to the NOT NULL constraints), whereas the handler as written
      fails for every request. */
  lemma AuthorCouldUpdate(reviews: seq<Review>, caller: Caller, i: nat, upd: ReviewUpdate)
    requires i < |reviews| && reviews[i].userId == caller.id
    requires forall j :: 0 <= j < |reviews| && j != i ==> reviews[j].id != reviews[i].id
    ensures IntendedUpdate(reviews, caller, reviews[i].id, upd) ==
      if NullColumn(upd).None? then Ok(Patched(reviews[i], upd)) else Err(IntegrityError(NullColumn(upd).value))
  {
    var k := ReviewIndex(reviews, reviews[i].id);
    assert k == Some(i);
  }

  /** The `reviews` table. */
  class ReviewStore {
    var reviews: seq<Review>
    var nextId: nat

    ghost predicate Valid()
      reads this
    {
      forall i :: 0 <= i < |reviews| ==> reviews[i].id < nextId
    }

    constructor ()
      ensures Valid() && reviews == []
    {
      reviews := [];
      nextId := 1;
    }

    /** `create_review`: the guard, then one new row. */
    method CreateReview(caller: Caller, review: ReviewCreate, products: seq<Catalog.Product>) returns (r: Result<Review>)
      requires Valid()
      modifies this
      ensures Valid()
      ensures CreateGuard(products, caller, review).Fail? ==>
        r == Err(CreateGuard(products, caller, review).error) && reviews == old(reviews) && nextId == old(nextId)
      ensures CreateGuard(products, caller, review) == Pass ==>
        r == Ok(Review(old(nextId), review.productId, review.userId, review.rating, review.comment))
        && reviews == old(reviews) + [r.value] && nextId == old(nextId) + 1
    {
      var guard := CreateGuard(products, caller, review);
      if guard.Fail? {
        return Err(guard.error);
      }
      var rv := Review(nextId, review.productId, review.userId, review.rating, review.comment);
      reviews := reviews + [rv];
      nextId := nextId + 1;
      return Ok(rv);
    }

    /** `update_review` as written: its first step calls
        `crud_review.get_review`, which the module does not define, so every
        request fails there and nothing changes. */
    method UpdateReview(caller: Caller, reviewId: int, upd: ReviewUpdate) returns (r: Result<Review>)
      ensures r == Err(AttributeError("get_review"))
    {
      r := Err(AttributeError("get_review"));
    }

    /** `update_review` with `get_reviews`, the lookup evidently meant; a
        null `product_id` or `user_id` is refused by the commit and changes
        nothing. */
    method UpdateReviewIntended(caller: Caller, reviewId: int, upd: ReviewUpdate) returns (r: Result<Review>)
      requires Valid()
      modifies this
      ensures Valid() && nextId == old(nextId)
      ensures r == IntendedUpdate(old(reviews), caller, reviewId, upd)
      ensures match OwnerGuard(old(reviews), caller, reviewId, UPDATE_FORBIDDEN)
        case Err(_) => reviews == old(reviews)
        case Ok(i) => reviews == if r.Ok? then old(reviews)[i := r.value] else old(reviews)
    {
      var guard := OwnerGuard(reviews, caller, reviewId, UPDATE_FORBIDDEN);
      if guard.Err? {
        return Err(guard.error);
      }
      var i := guard.value;
      var column := NullColumn(upd);
      if column.Some? {
        return Err(IntegrityError(column.value));
      }
      var rv := Patched(reviews[i], upd);
      reviews := reviews[i := rv];
      return Ok(rv);
    }

    /** `delete_review`: the guard, then exactly that row goes. */
    method DeleteReview(caller: Caller, reviewId: int) returns (r: Outcome)
      requires Valid()
      modifies this
      ensures Valid() && nextId == old(nextId)
      ensures match OwnerGuard(old(reviews), caller, reviewId, DELETE_FORBIDDEN)
        case Err(e) => r == Fail(e) && reviews == old(reviews)
        case Ok(i) => r == Pass && reviews == RemoveAt(old(reviews), i)
    {
      var guard := OwnerGuard(reviews, caller, reviewId, DELETE_FORBIDDEN);
      if guard.Err? {
        return Fail(guard.error);
      }
      reviews := RemoveAt(reviews, guard.value);
      return Pass;
    }
  }
}
