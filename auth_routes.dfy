/**
 * The credential routes: registration inserts a user after checking that the
 * email is free, login looks the user up by email and compares the password
 * with the stored hash, and the current-user route looks a user up by the id
 * the authentication gate attached. Password hashing and token signing are
 * foreign code and enter as values: a `Crypto` pair of functions and a
 * `Token` that records only what the signed payload binds.
 */
module AuthRoutes {
  import opened Outcomes

  /** The lifetime given to every issued token: "1d", in seconds. */
  const OneDay: nat := 86400

  /** A signed session token: the user id it carries and its lifetime. */
  datatype Token = Token(userId: nat, lifetime: nat)

  /** A stored user; `password` holds the hash, as produced at registration. */
  datatype User = User(id: nat, username: string, email: string, password: string)

  /**
   * The password hashing library: `hash(password, salt)` with a salt drawn at
   * random by the library, and `compare(password, stored)`.
   */
  datatype Crypto = Crypto(hash: (string, nat) -> string, compare: (string, string) -> bool)

  /** What a successful login answers: the token and the user's id. */
  datatype Session = Session(token: Token, userId: nat)

  /** The error responses of the credential routes. */
  datatype Error =
    | UserAlreadyExists    // 400 "User already exist"
    | InvalidCredentials   // 400 "Invalid credentials"

  /** A hash verifies against the password it was made from, whatever the salt. */
  ghost predicate HashVerifies(crypto: Crypto)
  {
    forall password, salt :: crypto.compare(password, crypto.hash(password, salt))
  }

  /** The user table's invariant: no two users share an email. */
  ghost predicate UniqueEmails(users: seq<User>)
  {
    forall i, j :: 0 <= i < j < |users| ==> users[i].email != users[j].email
  }

  /** No two users share an id. */
  ghost predicate UniqueIds(users: seq<User>)
  {
    forall i, j :: 0 <= i < j < |users| ==> users[i].id != users[j].id
  }

  /** Position of the first user with this email, if any (a find-one by email). */
  function FindByEmail(users: seq<User>, email: string): (r: Option<nat>)
    ensures r.None? <==> forall k :: 0 <= k < |users| ==> users[k].email != email
    ensures r.Some? ==> r.value < |users| && users[r.value].email == email
    ensures r.Some? ==> forall k :: 0 <= k < r.value ==> users[k].email != email
  {
    if users == [] then None
    else if users[0].email == email then Some(0)
    else match FindByEmail(users[1..], email)
      case None => None
      case Some(k) => Some(k + 1)
  }

  /**
   * Login. It succeeds exactly when a user with this email exists and the
   * password compares equal to that user's stored hash, and then issues a
   * one-day token bound to that user. An unknown email and a wrong password
   * give the one and the same failure. Login reads the table and never
   * changes it.
   */
  function Login(users: seq<User>, crypto: Crypto, email: string, password: string): (r: Result<Session, Error>)
    ensures r.Failure? ==> r == Failure(InvalidCredentials)
    ensures r.Success? ==>
              exists k :: 0 <= k < |users| && users[k].email == email
                          && crypto.compare(password, users[k].password)
                          && r.value == Session(Token(users[k].id, OneDay), users[k].id)
    ensures UniqueEmails(users) ==>
              (r.Success? <==>
                 exists k :: 0 <= k < |users| && users[k].email == email && crypto.compare(password, users[k].password))
  {
    match FindByEmail(users, email)
    case None => Failure(InvalidCredentials)
    case Some(k) =>
      if !crypto.compare(password, users[k].password) then Failure(InvalidCredentials)
      else Success(Session(Token(users[k].id, OneDay), users[k].id))
  }

  /**
   * The current-user route: the whole record of the user with the id the
   * authentication gate attached, hash included, or None (answered as a null
   * body with status 200) when no such user is stored.
   */
  function Me(users: seq<User>, id: nat): (r: Option<User>)
    ensures r.None? <==> forall k :: 0 <= k < |users| ==> users[k].id != id
    ensures r.Some? ==> r.value in users && r.value.id == id
  {
    if users == [] then None
    else if users[0].id == id then Some(users[0])
    else Me(users[1..], id)
  }

  /** Registering a fresh email and then logging in with the same password succeeds, bound to the new user. */
  lemma LoginAfterRegister(users: seq<User>, crypto: Crypto, added: User, password: string, salt: nat)
    requires HashVerifies(crypto)
    requires forall k :: 0 <= k < |users| ==> users[k].email != added.email
    requires added.password == crypto.hash(password, salt)
    ensures Login(users + [added], crypto, added.email, password) == Success(Session(Token(added.id, OneDay), added.id))
  {
    var all := users + [added];
    assert all[|users|] == added;
    assert FindByEmail(all, added.email) == Some(|users|);
  }

  /** Registering a user with another email leaves every login outcome for this email as it was. */
  lemma LoginUnaffectedByOtherRegistration(users: seq<User>, crypto: Crypto, added: User, email: string, password: string)
    requires added.email != email
    ensures Login(users + [added], crypto, email, password) == Login(users, crypto, email, password)
  {
    var all := users + [added];
    match FindByEmail(users, email)
    case None =>
      assert FindByEmail(all, email).None?;
    case Some(k) =>
      assert all[k] == users[k];
      assert FindByEmail(all, email) == Some(k);
  }

  /** After registration the current-user route returns the new record unchanged, hash included. */
  lemma MeAfterRegister(users: seq<User>, added: User)
    requires forall k :: 0 <= k < |users| ==> users[k].id != added.id
    ensures Me(users + [added], added.id) == Some(added)
  {
    var all := users + [added];
    assert all[|users|] == added;
  }

  /**
   * The user table. `nextId` is the source of fresh ids and `crypto` the
   * hashing library the process was configured with.
   */
  class UserStore {
    var users: seq<User>
    var nextId: nat
    const crypto: Crypto

    /** Emails and ids are unique, ids below `nextId`. */
    ghost predicate Valid()
      reads this
    {
      && UniqueEmails(users)
      && UniqueIds(users)
      && (forall k :: 0 <= k < |users| ==> users[k].id < nextId)
    }

    constructor (crypto: Crypto)
      ensures Valid()
      ensures users == [] && this.crypto == crypto
    {
      users := [];
      nextId := 0;
      this.crypto := crypto;
    }

    /**
     * Registration. An email already in the table fails with
     * UserAlreadyExists and changes nothing. Otherwise exactly one user is
     * appended, with the given username and email and the hash of the
     * password in place of the password, under a fresh id, and a one-day
     * token bound to that id is issued. The token is the response Express 5
     * sends; Express 4 reads the two-argument `json` call as a status code
     * and the handler answers 500 after the user is stored.
     */
    method Register(username: string, email: string, password: string, salt: nat)
      returns (r: Result<Token, Error>)
      requires Valid()
      modifies this
      ensures Valid()
      ensures FindByEmail(old(users), email).Some? ==> r == Failure(UserAlreadyExists) && unchanged(this)
      ensures FindByEmail(old(users), email).None? ==>
                && users == old(users) + [User(old(nextId), username, email, crypto.hash(password, salt))]
                && r == Success(Token(old(nextId), OneDay))
                && nextId > old(nextId)
    {
      if FindByEmail(users, email).Some? {
        return Failure(UserAlreadyExists);
      }
      var user := User(nextId, username, email, crypto.hash(password, salt));
      users := users + [user];
      r := Success(Token(nextId, OneDay));
      nextId := nextId + 1;
    }
  }
}
