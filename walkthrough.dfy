/**
 * A client of the two routers that follows one user through the service:
 * register, register again, log in with a wrong password, add a book, review
 * it twice and read its detail. Every outcome asserted here follows from the
 * routers' contracts alone.
 */
module Walkthrough {
  import opened Outcomes
  import AuthRoutes
  import Reviews
  import BookRoutes

  /** Register, register the same email again, log in wrongly and rightly. */
  method RegisterAndLogIn() returns (userId: nat)
  {
    var crypto := AuthRoutes.Crypto((p: string, salt: nat) => "bcrypt:" + p, (p: string, h: string) => h == "bcrypt:" + p);
    var accounts := new AuthRoutes.UserStore(crypto);

    var registered := accounts.Register("A", "a@x.com", "pw1", 7);
    assert registered.Success?;
    var alice := accounts.users[0];
    assert accounts.users == [alice] && registered.value == AuthRoutes.Token(alice.id, AuthRoutes.OneDay);
    var again := accounts.Register("B", "a@x.com", "pw2", 8);
    assert again == Failure(AuthRoutes.UserAlreadyExists);

    var wrong := AuthRoutes.Login(accounts.users, crypto, "a@x.com", "wrong");
    assert wrong == Failure(AuthRoutes.InvalidCredentials);
    var right := AuthRoutes.Login(accounts.users, crypto, "a@x.com", "pw1");
    assert right == Success(AuthRoutes.Session(registered.value, alice.id));
    userId := alice.id;
  }

  /** Add a book, review it twice as the same user and read its detail. */
  method ReviewAndRead(reviewer: nat)
  {
    var library := new BookRoutes.Library();
    var created := library.CreateBook(Some("Dune"), Some("Herbert"), None, None);
    assert created.Success?;
    var dune := created.value;
    assert BookRoutes.FindBook(library.books, dune).Some? by {
      assert library.books[0].id == dune;
    }

    var first := library.CreateReview(reviewer, dune, 5, None);
    assert first.Success? && library.reviews == [first.value];
    assert Reviews.Reviewed(library.reviews, reviewer, dune) by {
      assert library.reviews[0] == first.value;
    }
    var second := library.CreateReview(reviewer, dune, 4, Some("again"));
    assert second == Failure(BookRoutes.AlreadyReviewed);

    var detail := BookRoutes.BookDetail(library.books, library.reviews, dune, 1, 5);
    assert detail.Success?;
    assert library.reviews == [] + [first.value];
    Reviews.ForBookAppend([], first.value, dune);
    Reviews.AverageAfterAppend([], first.value, dune);
    assert detail.value.averageRating == Some(5.0);
    assert detail.value.reviews == [first.value];
  }
}
