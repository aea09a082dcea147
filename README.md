# BookReview core in Dafny

A model of the two route files that carry the logic of the BookReview service:

- the **book router** (`backend/routes/book.routes.js`): a book table and a review ledger.
  A signed-in user may review a book once. The owner may change the rating or comment,
  or delete the review. Anyone may read a book with one page of its reviews and the
  mean of all its ratings.
- the **credential router** (`backend/routes/auth.routes.js`): registration with a unique
  email, login by email and password, and the current-user lookup.

The book record (`backend/models/Book.models.js`) is the `Catalog.Book` datatype.

Modules, one per component:

| file | module | what it holds |
|---|---|---|
| outcomes.dfy | `Outcomes` | `Option`, and `Result` for a handler's value or error response |
| catalog.dfy | `Catalog` | the book record and the schema's required-field validation |
| paging.dfy | `Paging` | the skip/limit page window over a sequence |
| reviews.dfy | `Reviews` | the review record, lookup by id, the one-per-pair rule, a book's reviews, the rating mean |
| book_routes.dfy | `BookRoutes` | the `Library` class (book table, review ledger, fresh-id counter), its handlers, `BookDetail` |
| auth_routes.dfy | `AuthRoutes` | the `UserStore` class and `Register`, plus the pure `Login` and `Me` |
| walkthrough.dfy | `Walkthrough` | a client that follows one user through register, login, book creation, review and detail, using only the contracts |

The tables are sequences in insertion order. The model takes that order as the order in
which the store returns documents, and skip/limit pages through it. Handlers that change the tables are methods of a class with
`modifies this`. Each states the whole new state and keeps the class invariant `Valid()`.
For reviews, `Valid()` says ids are unique, every review names a stored book, and there is
at most one review per (user, book). For users, it says emails and ids are unique.
Read-only handlers (book detail, login, current user) are functions over the stored
sequences. The mean rating is an exact real, sum divided by count.

The caller id that the authentication middleware attaches to the request is a method
argument. Password hashing enters as a `Crypto` value, a pair of functions
`hash(password, salt)` and `compare(password, stored)`. The salt is a parameter, because
the library draws it at random. The fact that a hash verifies against its own password
(`HashVerifies`) is a hypothesis of the lemmas that need it. Token signing is the
`Token(userId, lifetime)` value. Every token a reachable handler issues has a one-day
lifetime (86400 seconds).

Behaviour of the code worth knowing:

- Creating a review does not check the rating range. Only update does
  (`book.routes.js:80-85` against `113-118`).
- Register and the first `/login` handler issue tokens that last one day. The second
  `/login` handler, which issues one-hour tokens, can never run: the first handler for the
  same path always ends the response (`auth.routes.js:31-72`).
- The current-user route returns the whole stored record, password hash included. For an
  unknown id it answers 200 with a null body (`auth.routes.js:76-77`).
- A limit of 0 returns all of the book's reviews, because the document store reads
  `limit(0)` as "no limit". The model states this case separately from the page window.
- Register answers with `res.status(201).json({ token }, { message, userId })`
  (`auth.routes.js:22-24`). Under Express 4 that two-argument call is the old
  `res.json(status, body)` form. It takes `{ token }` as the status code and
  `{ message, userId }` as the body. Node refuses that status code and throws, so the
  `catch` at `auth.routes.js:25-27` answers 500. The user was already saved at line 18,
  so the client never sees its token, and registering again fails with "User already
  exist". Only under Express 5, which ignores the second argument, does the client get
  201 with `{ token }`. That is the reading `UserStore.Register` models.
- `book.routes.js:2` imports a default export from `Book.models.js`, but that module
  exports only the named `BookModel` (`Book.models.js:13`). So the book router module
  cannot even be loaded as written. The model takes `Books` to be that book model.

## Model

| member | source | states |
|---|---|---|
| Catalog.NewBook | backend/models/Book.models.js:6-9 | A new book exists exactly when title and author are present and non-empty. It then carries title, author, genre and description as given. |
| Paging.Page | backend/routes/book.routes.js:38-41 | Page p of size l (l > 0) is exactly the entries at positions [(p-1)*l, min((p-1)*l + l, n)), that is, up to min(p*l, n). It is empty once (p-1)*l >= n, it is the whole sequence when l = 0, and it holds only entries of the sequence. |
| Paging.PagesCover | backend/routes/book.routes.js:40-41 | Pages 1..m concatenated are the first min(m*l, n) entries. So walking the pages visits every entry once, in stored order. |
| Paging.PageOfEntry | backend/routes/book.routes.js:40-41 | Entry k is on page k/l + 1, at position k mod l. |
| Reviews.IndexOf | backend/routes/book.routes.js:104-105 | The lookup by id finds nothing exactly when no review has that id. Otherwise it finds the first position holding that id. |
| Reviews.IndexOfPair | backend/routes/book.routes.js:70-73 | The find-one by book and user finds nothing exactly when the user has not reviewed the book. Otherwise it finds the first review of that book by that user. |
| Reviews.CreateKeepsOnePerPair | backend/routes/book.routes.js:69-87 | Appending a review for a (user, book) pair with no review keeps the at-most-one-per-pair invariant. Afterwards the pair counts as reviewed. The create handler keeps its invariant through this lemma. |
| Reviews.ForBookMembers | backend/routes/book.routes.js:38 | A book's review list holds exactly the stored reviews that name that book. |
| Reviews.ForBookEmpty | backend/routes/book.routes.js:43-48 | A book's review list is empty exactly when no stored review names the book. |
| Reviews.ForBookAppend | backend/routes/book.routes.js:80-87 | Storing a review appends it to its own book's list and leaves every other book's list unchanged. |
| Reviews.AverageRating | backend/routes/book.routes.js:43-48 | The mean is absent exactly when there are no ratings. Otherwise mean × count = sum of ratings. |
| Reviews.AverageWithinRange | backend/routes/book.routes.js:43-48 | If every rating is between 1 and 5, so is the mean. |
| Reviews.AverageOfAppend | backend/routes/book.routes.js:43-48 | One more rating moves the mean to (sum + rating) / (count + 1). |
| Reviews.AverageAfterAppend | backend/routes/book.routes.js:43-48 | After a review is added to a book, that book's mean is (sum + rating) / (count + 1). Every other book's mean is unchanged. |
| Reviews.RemoveAt | backend/routes/book.routes.js:145 | The delete takes out the review at one position. The table gets one shorter, and every other review keeps its relative order. |
| Reviews.RemoveKeepsInvariants | backend/routes/book.routes.js:145 | Removing one review keeps ids unique and keeps at most one review per pair. The reviews removed are exactly those with that review's id, so with unique ids only that review goes. |
| Reviews.Patch | backend/routes/book.routes.js:113-121 | A supplied rating or comment replaces the stored one and an omitted one is kept. Id, user and book never change. |
| BookRoutes.FindBook | backend/routes/book.routes.js:66-67 | The book lookup fails exactly when no stored book has the id. Otherwise it returns a stored book with that id. |
| BookRoutes.BookDetail | backend/routes/book.routes.js:29-58 | Fails with BookNotFound exactly for an unknown book. Otherwise the average is the mean over all the book's reviews, whatever the page and limit, and is null exactly when no review names the book. The reviews shown are positions [(p-1)*l, p*l) of the book's reviews in stored order (all of them for l = 0), and every one belongs to the book. |
| BookRoutes.Library.CreateBook | backend/routes/book.routes.js:8-18 | A book missing its title or author is refused with a 500 and nothing changes. Otherwise the book is appended under a fresh id, which is returned, and the reviews are untouched. |
| BookRoutes.Library.ListBooks | backend/routes/book.routes.js:20-27 | Lists every stored book document, id included, in stored order. Each listed id resolves back to that same book. |
| BookRoutes.Library.CreateReview | backend/routes/book.routes.js:60-97 | An unknown book gives BookNotFound and an existing review by the caller gives AlreadyReviewed; neither changes anything. Otherwise exactly one review (fresh id, caller, book, rating, comment as given) is appended, the rest are kept, and the invariant holds. |
| BookRoutes.Library.UpdateReview | backend/routes/book.routes.js:99-130 | An unknown id gives ReviewNotFound, a caller who is not the owner gives NotAuthorized, and a supplied rating outside 1..5 gives RatingOutOfRange before either field changes; none of these changes anything. Otherwise only that review is replaced, by its patched version, and the invariant holds. |
| BookRoutes.Library.DeleteReview | backend/routes/book.routes.js:132-152 | Gives the same not-found and not-owner failures, which change nothing. Otherwise exactly the review with that id is removed and the others keep their order. |
| AuthRoutes.FindByEmail | backend/routes/auth.routes.js:12-13 | The find-one by email finds nothing exactly when no user has that email. Otherwise it returns the first user with it. |
| AuthRoutes.Login | backend/routes/auth.routes.js:31-52 | An unknown email and a wrong password give one identical InvalidCredentials failure. With unique emails, login succeeds exactly when a user with that email exists and compare(password, stored hash) holds. On success it issues a one-day token bound to that user's id. The table is only read. |
| AuthRoutes.Me | backend/routes/auth.routes.js:74-82 | Returns a stored user with the gate's id, the whole record unfiltered, or none exactly when no user has that id. |
| AuthRoutes.LoginAfterRegister | backend/routes/auth.routes.js:16-18 | After a fresh email is registered with its hashed password, logging in with that password succeeds. The session is bound to the new user, with a one-day token (given that a hash verifies against its own password). |
| AuthRoutes.LoginUnaffectedByOtherRegistration | backend/routes/auth.routes.js:12-18 | Registering a different email does not change any login outcome for this email. |
| AuthRoutes.MeAfterRegister | backend/routes/auth.routes.js:76-77 | After registration, the current-user route for the new id returns the new record exactly as stored, hash included. |
| AuthRoutes.UserStore.Register | backend/routes/auth.routes.js:9-29 | A taken email gives UserAlreadyExists and nothing changes. Otherwise exactly one user is appended (fresh id, username, email, hash(password, salt) in place of the password), emails stay unique, and a one-day token for the new id is returned, as Express 5 sends it (see "Left out" for Express 4). |

## Left out

- HTTP routing, CORS, JSON parsing and server start-up (`backend/index.js`). The book router is not even mounted there (`backend/index.js:18`). Its module would also fail to load, because its default import of the book model does not exist (`book.routes.js:2`, `Book.models.js:13`).
- The authentication middleware is not part of this model. Its effect is the caller id passed to each protected method. Token verification and expiry are not modelled.
- The internals of the password hash and the token signature: randomness, cost factor, signing secret. They are the `Crypto` and `Token` values above.
- The second `/login` handler (`auth.routes.js:54-72`). It is unreachable behind the first one.
- The review and user schemas (`Review.models.js`, `User.models.js`) are not part of this model. Any validation they run on save is not modelled. This covers a possible rating bound on create and required user fields.
- Storage failures, malformed ids and every other path into the `catch` blocks (500), and console logging. The exception is the book whose required fields are missing.
- The join that replaces each shown review's user id by the user's name and email. Shown reviews carry the user id.
- Floating-point rounding in the store's average. The mean is an exact real.
- Coercion of the `page` and `limit` query strings and their defaults (1 and 5). BookDetail takes naturals and requires page >= 1.
- Creation and update timestamps.
- The order in which the store returns books and reviews. The queries at `book.routes.js:22` and `38-41` ask for no sort, so that order is up to the store. The model takes it to be insertion order.
- The race windows between the read and the write in register and create review. The model is sequential.
- AuthRoutes.UserStore.Register: returns the token, which is the Express 5 reading of the two-argument `res.json` at `auth.routes.js:24`. Under Express 4 that call takes `{ token }` as the status code. Sending the response then throws, and the handler answers 500 after the user is already stored (`auth.routes.js:18`, `25-27`). The model does not capture that 500, the lost token, or the "User already exist" answer to a retry.
- BookRoutes.Library.CreateReview: always takes an integer rating. The handler passes whatever `req.body` holds (`book.routes.js:62`, `80-85`), so a rating can be omitted or `null` on create. The review schema is not part of this model. Depending on it, such a review is either refused on save (a 500) or stored without a rating. `$avg` (`book.routes.js:45`) skips a missing rating, so the store's mean then covers only the rated reviews. `AverageRating` divides by the count of all the book's reviews, and the model does not capture unrated reviews.
- An explicit `null` comment or rating in an update, and ratings that are not integers. Update fields are either omitted or given as an integer or string.
