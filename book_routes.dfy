/**
 * The book router: a book table and a review ledger held in insertion order,
 * with the handlers that create a book, list books, show one book with a
 * page of its reviews and its mean rating, and create, update and delete a
 * review. The caller id is the identity the authentication gate attached to
 * the request.
 */
module BookRoutes {
  import opened Outcomes
  import opened Catalog
  import opened Reviews
  import opened Paging

  /** The error responses of the book router. */
  datatype Error =
    | BookNotFound      // 404 "Book not found"
    | AlreadyReviewed   // 400 "You already reviewed this book"
    | ReviewNotFound    // 404 "Review not found"
    | NotAuthorized     // 403 "Not authorized to update/delete this review"
    | RatingOutOfRange  // 400 "Rating must be between 1 and 5"
    | InternalError     // 500 "Internal server error" (the book failed validation on save)

  /** A stored book with the id the store gave it. */
  datatype StoredBook = StoredBook(id: nat, book: Book)

  /** What the book-detail handler answers: the book, its mean rating and one page of its reviews. */
  datatype Detail = Detail(book: StoredBook, averageRating: Option<real>, reviews: seq<Review>)

  /** The stored book with this id, if any (a lookup by id). */
  function FindBook(books: seq<StoredBook>, id: nat): (r: Option<StoredBook>)
    ensures r.None? <==> forall k :: 0 <= k < |books| ==> books[k].id != id
    ensures r.Some? ==> r.value in books && r.value.id == id
  {
    if books == [] then None
    else if books[0].id == id then Some(books[0])
    else FindBook(books[1..], id)
  }

  /**
   * The book-detail handler: 404 for an unknown book; otherwise the book, the
   * mean over ALL of its reviews (None, answered as null, when it has none),
   * and the page of its reviews at positions [(page - 1) * limit, page * limit)
   * of their stored order (all of them when the limit is 0).
   */
  function BookDetail(books: seq<StoredBook>, reviews: seq<Review>, id: nat, page: nat, limit: nat): (r: Result<Detail, Error>)
    requires page >= 1
    ensures r.Failure? <==> forall k :: 0 <= k < |books| ==> books[k].id != id
    ensures r.Failure? ==> r.error == BookNotFound
    ensures r.Success? ==> r.value.book in books && r.value.book.id == id
    ensures r.Success? ==> r.value.averageRating == AverageRating(ForBook(reviews, id))
    ensures r.Success? ==>
              (r.value.averageRating.None? <==> forall k :: 0 <= k < |reviews| ==> reviews[k].book != id)
    ensures r.Success? && limit > 0 ==>
              var all := ForBook(reviews, id);
              var first := (page - 1) * limit;
              r.value.reviews == all[Min(first, |all|)..Min(first + limit, |all|)]
    ensures r.Success? && limit == 0 ==> r.value.reviews == ForBook(reviews, id)
    ensures r.Success? ==> forall x :: x in r.value.reviews ==> x in reviews && x.book == id
  {
    match FindBook(books, id)
    case None => Failure(BookNotFound)
    case Some(b) =>
      var all := ForBook(reviews, id);
      ForBookEmpty(reviews, id);
      ForBookMembers(reviews, id);
      var shown := Page(all, page, limit);
      Success(Detail(b, AverageRating(all), shown))
  }

  /**
   * The two tables behind the router. Books and reviews are kept in the order
   * they were stored; `nextId` is the source of fresh ids, shared by books and
   * reviews as document ids are.
   */
  class Library {
    var books: seq<StoredBook>
    var reviews: seq<Review>
    var nextId: nat

    /**
     * Ids are below `nextId` and unique, every review names a stored book, and
     * no user has two reviews of the same book.
     */
    ghost predicate Valid()
      reads this
    {
      && (forall k :: 0 <= k < |books| ==> books[k].id < nextId)
      && (forall i, j :: 0 <= i < j < |books| ==> books[i].id != books[j].id)
      && (forall k :: 0 <= k < |reviews| ==> reviews[k].id < nextId)
      && UniqueIds(reviews)
      && OnePerPair(reviews)
      && (forall k :: 0 <= k < |reviews| ==> FindBook(books, reviews[k].book).Some?)
    }

    constructor ()
      ensures Valid()
      ensures books == [] && reviews == []
    {
      books := [];
      reviews := [];
      nextId := 0;
    }

    /**
     * Creating a book: a book missing its title or author fails validation
     * when saved (answered 500) and nothing is stored; otherwise it is stored
     * under a fresh id, which is returned.
     */
    method CreateBook(title: Option<string>, author: Option<string>, description: Option<string>, genre: Option<string>)
      returns (r: Result<nat, Error>)
      requires Valid()
      modifies this
      ensures Valid()
      ensures NewBook(title, author, genre, description).None? ==> r == Failure(InternalError) && unchanged(this)
      ensures NewBook(title, author, genre, description).Some? ==>
                && r == Success(old(nextId))
                && books == old(books) + [StoredBook(old(nextId), NewBook(title, author, genre, description).value)]
                && reviews == old(reviews)
                && nextId > old(nextId)
    {
      var made := NewBook(title, author, genre, description);
      if made.None? {
        return Failure(InternalError);
      }
      var entry := StoredBook(nextId, made.value);
      forall k | 0 <= k < |reviews|
        ensures FindBook(books + [entry], reviews[k].book).Some?
      {
        assert FindBook(books, reviews[k].book).value in books + [entry];
      }
      books := books + [entry];
      r := Success(nextId);
      nextId := nextId + 1;
    }

    /**
     * Listing books: every stored document, id included, in stored order.
     * Each listed id is the one that the detail and review handlers resolve
     * back to that same book.
     */
    function ListBooks(): (r: seq<StoredBook>)
      reads this
      requires Valid()
      ensures r == books
      ensures forall k :: 0 <= k < |r| ==> FindBook(books, r[k].id) == Some(r[k])
    {
      forall k | 0 <= k < |books|
        ensures FindBook(books, books[k].id) == Some(books[k])
      {
        var found := FindBook(books, books[k].id).value;
        var j :| 0 <= j < |books| && books[j] == found;
        assert j == k;
      }
      books
    }

    /**
     * Creating a review. An unknown book fails with BookNotFound, a second
     * review of the same book by the same caller fails with AlreadyReviewed,
     * and in both cases nothing changes. Otherwise exactly one review, owned
     * by the caller, is appended and every existing review is kept as it was.
     * The rating is stored as given.
     */
    method CreateReview(caller: nat, bookId: nat, rating: int, comment: Option<string>)
      returns (r: Result<Review, Error>)
      requires Valid()
      modifies this
      ensures Valid()
      ensures FindBook(old(books), bookId).None? ==> r == Failure(BookNotFound) && unchanged(this)
      ensures FindBook(old(books), bookId).Some? && Reviewed(old(reviews), caller, bookId) ==>
                r == Failure(AlreadyReviewed) && unchanged(this)
      ensures FindBook(old(books), bookId).Some? && !Reviewed(old(reviews), caller, bookId) ==>
                && r == Success(Review(old(nextId), caller, bookId, rating, comment))
                && reviews == old(reviews) + [r.value]
                && books == old(books)
                && nextId > old(nextId)
    {
      if FindBook(books, bookId).None? {
        return Failure(BookNotFound);
      }
      if IndexOfPair(reviews, caller, bookId).Some? {
        return Failure(AlreadyReviewed);
      }
      var review := Review(nextId, caller, bookId, rating, comment);
      CreateKeepsOnePerPair(reviews, review);
      reviews := reviews + [review];
      nextId := nextId + 1;
      r := Success(review);
    }

    /**
     * Updating a review. An unknown id fails with ReviewNotFound, a caller
     * who does not own the review fails with NotAuthorized, and a supplied
     * rating outside 1 to 5 fails with RatingOutOfRange before either field is
     * touched; none of these changes anything. Otherwise the review is
     * replaced in place by its patched version and nothing else changes.
     */
    method UpdateReview(caller: nat, id: nat, rating: Option<int>, comment: Option<string>)
      returns (r: Result<Review, Error>)
      requires Valid()
      modifies this
      ensures Valid()
      ensures IndexOf(old(reviews), id).None? ==> r == Failure(ReviewNotFound) && unchanged(this)
      ensures IndexOf(old(reviews), id).Some? ==>
                var i := IndexOf(old(reviews), id).value;
                var rv := old(reviews)[i];
                if rv.user != caller then r == Failure(NotAuthorized) && unchanged(this)
                else if rating.Some? && !InRange(rating.value) then r == Failure(RatingOutOfRange) && unchanged(this)
                else
                  && r == Success(Patch(rv, rating, comment))
                  && reviews == old(reviews)[i := r.value]
                  && books == old(books)
                  && nextId == old(nextId)
    {
      var found := IndexOf(reviews, id);
      if found.None? {
        return Failure(ReviewNotFound);
      }
      var i := found.value;
      var rv := reviews[i];
      if rv.user != caller {
        return Failure(NotAuthorized);
      }
      if rating.Some? && !InRange(rating.value) {
        return Failure(RatingOutOfRange);
      }
      var patched := Patch(rv, rating, comment);
      reviews := reviews[i := patched];
      r := Success(patched);
    }

    /**
     * Deleting a review: the same not-found and ownership failures as update,
     * which change nothing; otherwise exactly the review with this id is
     * removed and the others keep their order.
     */
    method DeleteReview(caller: nat, id: nat) returns (r: Result<(), Error>)
      requires Valid()
      modifies this
      ensures Valid()
      ensures IndexOf(old(reviews), id).None? ==> r == Failure(ReviewNotFound) && unchanged(this)
      ensures IndexOf(old(reviews), id).Some? ==>
                var i := IndexOf(old(reviews), id).value;
                if old(reviews)[i].user != caller then r == Failure(NotAuthorized) && unchanged(this)
                else
                  && r == Success(())
                  && reviews == RemoveAt(old(reviews), i)
                  && (forall x :: x in reviews <==> x in old(reviews) && x.id != id)
                  && books == old(books)
                  && nextId == old(nextId)
    {
      var found := IndexOf(reviews, id);
      if found.None? {
        return Failure(ReviewNotFound);
      }
      var i := found.value;
      if reviews[i].user != caller {
        return Failure(NotAuthorized);
      }
      RemoveKeepsInvariants(reviews, i);
      reviews := RemoveAt(reviews, i);
      r := Success(());
    }
  }
}
