/**
 * The review record and the queries the handlers run over the review table:
 * lookup by id, the one-review-per-(user, book) rule, the reviews of one
 * book in insertion order, and the mean of their ratings.
 */
module Reviews {
  import opened Outcomes

  /**
   * A review refers to its user and its book by id only. The rating is an
   * integer as supplied by the caller; nothing on the create path bounds it.
   */
  datatype Review = Review(id: nat, user: nat, book: nat, rating: int, comment: Option<string>)

  /** The rating range the update handler enforces. */
  predicate InRange(rating: int)
  {
    1 <= rating <= 5
  }

  /** Position of the review with this id, if any (a lookup by id). */
  function IndexOf(rs: seq<Review>, id: nat): (r: Option<nat>)
    ensures r.None? <==> forall k :: 0 <= k < |rs| ==> rs[k].id != id
    ensures r.Some? ==> r.value < |rs| && rs[r.value].id == id
    ensures r.Some? ==> forall k :: 0 <= k < r.value ==> rs[k].id != id
  {
    if rs == [] then None
    else if rs[0].id == id then Some(0)
    else match IndexOf(rs[1..], id)
      case None => None
      case Some(k) => Some(k + 1)
  }

  /** Whether `user` has already reviewed `book`. */
  predicate Reviewed(rs: seq<Review>, user: nat, book: nat)
  {
    exists k :: 0 <= k < |rs| && rs[k].user == user && rs[k].book == book
  }

  /**
   * Position of the first review of `book` by `user`, if any (the find-one
   * by book and user that the create handler runs before it saves).
   */
  function IndexOfPair(rs: seq<Review>, user: nat, book: nat): (r: Option<nat>)
    ensures r.None? <==> !Reviewed(rs, user, book)
    ensures r.Some? ==> r.value < |rs| && rs[r.value].user == user && rs[r.value].book == book
    ensures r.Some? ==> forall k :: 0 <= k < r.value ==> !(rs[k].user == user && rs[k].book == book)
  {
    if rs == [] then None
    else if rs[0].user == user && rs[0].book == book then Some(0)
    else match IndexOfPair(rs[1..], user, book)
      case None =>
        assert forall k :: 1 <= k < |rs| ==> rs[k] == rs[1..][k - 1];
        None
      case Some(k) => Some(k + 1)
  }

  /** No two reviews share an id. */
  ghost predicate UniqueIds(rs: seq<Review>)
  {
    forall i, j :: 0 <= i < j < |rs| ==> rs[i].id != rs[j].id
  }

  /** The ledger's invariant: at most one review per (user, book) pair. */
  ghost predicate OnePerPair(rs: seq<Review>)
  {
    forall i, j :: 0 <= i < j < |rs| && rs[i].user == rs[j].user ==> rs[i].book != rs[j].book
  }

  /**
   * Appending a review for a pair that has none keeps the one-per-pair
   * invariant, and afterwards that pair counts as reviewed.
   */
  lemma CreateKeepsOnePerPair(rs: seq<Review>, x: Review)
    requires OnePerPair(rs)
    requires !Reviewed(rs, x.user, x.book)
    ensures OnePerPair(rs + [x])
    ensures Reviewed(rs + [x], x.user, x.book)
  {
    var all := rs + [x];
    assert all[|rs|] == x;
    forall i, j | 0 <= i < j < |all| && all[i].user == all[j].user
      ensures all[i].book != all[j].book
    {
      if j == |rs| {
        assert all[i] == rs[i];
      }
    }
  }

  /** The table without the review at position `i`; the others keep their order. */
  function RemoveAt(rs: seq<Review>, i: nat): (r: seq<Review>)
    requires i < |rs|
    ensures |r| == |rs| - 1
    ensures forall k :: 0 <= k < |r| ==> r[k] == rs[if k < i then k else k + 1]
  {
    rs[..i] + rs[i + 1..]
  }

  /**
   * Removing one review keeps ids unique and the one-per-pair invariant, and
   * removes exactly the reviews with that review's id: with unique ids, that
   * review and no other.
   */
  lemma RemoveKeepsInvariants(rs: seq<Review>, i: nat)
    requires i < |rs| && UniqueIds(rs)
    ensures UniqueIds(RemoveAt(rs, i))
    ensures OnePerPair(rs) ==> OnePerPair(RemoveAt(rs, i))
    ensures forall x :: x in RemoveAt(rs, i) <==> x in rs && x.id != rs[i].id
  {
  }

  /** The reviews of one book, in the order they were stored. */
  function ForBook(rs: seq<Review>, book: nat): seq<Review>
  {
    if rs == [] then []
    else
      var last := rs[|rs| - 1];
      ForBook(rs[..|rs| - 1], book) + (if last.book == book then [last] else [])
  }

  /** A book's list holds exactly the stored reviews that name that book. */
  lemma {:induction false} ForBookMembers(rs: seq<Review>, book: nat)
    ensures forall x :: x in ForBook(rs, book) <==> x in rs && x.book == book
  {
    if rs != [] {
      var init := rs[..|rs| - 1];
      ForBookMembers(init, book);
      assert rs == init + [rs[|rs| - 1]];
    }
  }

  /** A book has no reviews exactly when no stored review names it. */
  lemma ForBookEmpty(rs: seq<Review>, book: nat)
    ensures ForBook(rs, book) == [] <==> forall k :: 0 <= k < |rs| ==> rs[k].book != book
  {
  }

  /** Storing one more review extends that review's book's list and no other. */
  lemma {:induction false} ForBookAppend(rs: seq<Review>, x: Review, book: nat)
    ensures ForBook(rs + [x], book) == if x.book == book then ForBook(rs, book) + [x] else ForBook(rs, book)
  {
  }

  /** Sum of the ratings. */
  function RatingSum(rs: seq<Review>): int
  {
    if rs == [] then 0 else RatingSum(rs[..|rs| - 1]) + rs[|rs| - 1].rating
  }

  /**
   * The mean rating as an exact real, or None when there is no rating at all
   * (the aggregation then produces no group and the handler answers null).
   */
  function AverageRating(rs: seq<Review>): (r: Option<real>)
    ensures r.None? <==> rs == []
    ensures r.Some? ==> r.value * (|rs| as real) == RatingSum(rs) as real
  {
    if rs == [] then None else Some(RatingSum(rs) as real / |rs| as real)
  }

  lemma {:induction false} RatingSumBounds(rs: seq<Review>)
    requires forall x :: x in rs ==> InRange(x.rating)
    ensures |rs| <= RatingSum(rs) <= 5 * |rs|
  {
    if rs != [] {
      var init := rs[..|rs| - 1];
      assert forall x :: x in init ==> x in rs;
      assert rs[|rs| - 1] in rs;
      RatingSumBounds(init);
    }
  }

  /** When every rating is within 1 to 5, so is the mean. */
  lemma AverageWithinRange(rs: seq<Review>)
    requires rs != []
    requires forall x :: x in rs ==> InRange(x.rating)
    ensures 1.0 <= AverageRating(rs).value <= 5.0
  {
    RatingSumBounds(rs);
    var n := |rs| as real;
    var sum := RatingSum(rs) as real;
    var avg := AverageRating(rs).value;
    assert avg == sum / n;
    assert n <= sum <= 5.0 * n;
    DivisionBounds(sum, n);
  }

  /** For a positive count n, n <= sum <= 5n puts sum / n between 1 and 5. */
  lemma DivisionBounds(sum: real, n: real)
    requires n > 0.0 && n <= sum <= 5.0 * n
    ensures 1.0 <= sum / n <= 5.0
  {
  }

  /** One more rating moves the mean to (sum + rating) / (count + 1). */
  lemma AverageOfAppend(rs: seq<Review>, x: Review)
    ensures AverageRating(rs + [x]) == Some((RatingSum(rs) + x.rating) as real / (|rs| + 1) as real)
  {
  }

  /**
   * Adding a review to a book moves its mean to (sum + rating) / (count + 1);
   * the mean of every other book is unchanged.
   */
  lemma AverageAfterAppend(rs: seq<Review>, x: Review, book: nat)
    ensures x.book == book ==>
              AverageRating(ForBook(rs + [x], book)) ==
              Some((RatingSum(ForBook(rs, book)) + x.rating) as real / (|ForBook(rs, book)| + 1) as real)
    ensures x.book != book ==> AverageRating(ForBook(rs + [x], book)) == AverageRating(ForBook(rs, book))
  {
    ForBookAppend(rs, x, book);
    if x.book == book {
      AverageOfAppend(ForBook(rs, book), x);
    }
  }

  /**
   * The partial update: a supplied rating or comment replaces the stored one,
   * an omitted one is kept; the review's id, user and book never change.
   */
  function Patch(rv: Review, rating: Option<int>, comment: Option<string>): (r: Review)
    ensures r.id == rv.id && r.user == rv.user && r.book == rv.book
    ensures rating.None? ==> r.rating == rv.rating
    ensures comment.None? ==> r.comment == rv.comment
    ensures rating.Some? ==> r.rating == rating.value
    ensures comment.Some? ==> r.comment == comment
  {
    rv.(rating := if rating.Some? then rating.value else rv.rating,
        comment := if comment.Some? then comment else rv.comment)
  }
}
