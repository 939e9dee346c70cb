/** The user controller: listing users, signing up and logging in. The email sanitizer and
    format check of the signup route, the password hash, the password comparison and the token
    issuer are opaque collaborators, passed in as functions. */
module Users {
  import opened Errors
  import opened Models
  import opened Database

  /** A user as `getAllUsers` shows it: every stored field except the password hash. */
  datatype PublicUser = PublicUser(name: string, email: string, image: Path, places: seq<PlaceId>)

  /** The answer of `signup` and `login`: the user document and a token issued for it. */
  datatype AuthAnswer = AuthAnswer(id: UserId, user: User, token: Token)

  /** The opaque collaborators of the user controller: the route's email sanitizer and
      format check, the bcrypt hash and comparison, and the token issuer. */
  datatype Collaborators = Collaborators(
    normalizeEmail: string -> string,
    isEmail: string -> bool,
    hash: string -> Hash,
    compare: (string, Hash) -> bool,
    createJWT: (UserId, User) -> Token)

  /** `getAllUsers`: every stored user, each without its password. */
  function GetAllUsers(users: map<UserId, User>): (r: map<UserId, PublicUser>)
    ensures r.Keys == users.Keys
    ensures forall u :: u in users ==>
              && r[u].name == users[u].name && r[u].email == users[u].email
              && r[u].image == users[u].image && r[u].places == users[u].places
  {
    map u | u in users :: PublicUser(users[u].name, users[u].email, users[u].image, users[u].places)
  }

  /** Nothing `getAllUsers` answers depends on a password: stores that differ only in their
      users' password hashes give the same answer. */
  lemma GetAllUsersHidesPasswords(a: map<UserId, User>, b: map<UserId, User>)
    requires a.Keys == b.Keys
    requires forall u :: u in a ==> a[u].(password := b[u].password) == b[u]
    ensures GetAllUsers(a) == GetAllUsers(b)
  {
    var ra, rb := GetAllUsers(a), GetAllUsers(b);
    forall u | u in ra ensures ra[u] == rb[u] {
      assert a[u].(password := b[u].password) == b[u];
    }
  }

  /** The route's rules for a signup: a non-empty name, an email that is well formed once
      sanitized, and a password of at least six characters. */
  predicate SignupChecks(name: string, email: string, password: string, c: Collaborators)
  {
    name != "" && c.isEmail(c.normalizeEmail(email)) && |password| >= 6
  }

  /** `signup`: the route has replaced the email by its normalized form, which is then checked
      for uniqueness and stored; the new user has the hashed password and no places. */
  function Signup(db: Db, name: string, email: string, password: string, image: Path,
                  c: Collaborators, newId: UserId, fault: Fault): (o: Outcome<AuthAnswer>)
    requires newId !in db.users
    ensures !SignupChecks(name, email, password, c) ==> o.result == Err(BadRequestError)
    ensures SignupChecks(name, email, password, c) && fault == LookupFault ==> o.result == Err(UncaughtError)
    ensures (SignupChecks(name, email, password, c) && fault != LookupFault &&
             EmailTaken(db.users, c.normalizeEmail(email))) ==> o.result == Err(BadRequestError)
    ensures (SignupChecks(name, email, password, c) && !EmailTaken(db.users, c.normalizeEmail(email)) &&
             fault == UserWriteFault) ==> o.result == Err(UncaughtError)
    ensures o.result.Ok? <==>
              && SignupChecks(name, email, password, c) && !EmailTaken(db.users, c.normalizeEmail(email))
              && fault != LookupFault && fault != UserWriteFault
    ensures o.result.Err? ==> o.after == db
    ensures o.result.Ok? ==>
              var s := o.result.value;
              && s.id == newId
              && s.user.name == name && s.user.email == c.normalizeEmail(email) && s.user.image == image
              && s.user.password == c.hash(password)
              && s.user.places == []
              && s.token == c.createJWT(newId, s.user)
              && o.after.users.Keys == db.users.Keys + {newId}
              && o.after.users[newId] == s.user
              && (forall u :: u in db.users ==> o.after.users[u] == db.users[u])
              && o.after.places == db.places
              && o.after.unlinked == db.unlinked
  {
    if !SignupChecks(name, email, password, c) then Outcome(db, Err(BadRequestError))
    else
      var address := c.normalizeEmail(email);
      if fault == LookupFault then Outcome(db, Err(UncaughtError))
      else if EmailTaken(db.users, address) then Outcome(db, Err(BadRequestError))
      else
        var hashedPassword := c.hash(password);
        if fault == UserWriteFault then Outcome(db, Err(UncaughtError))
        else
          var created := User(name, address, hashedPassword, image, []);
          Outcome(db.(users := db.users[newId := created]), Ok(AuthAnswer(newId, created, c.createJWT(newId, created))))
  }

  /** `User.findOne({ email })` on a store whose emails are unique. */
  function FindByEmail(users: map<UserId, User>, email: string): (r: Option<UserId>)
    requires EmailsUnique(users)
    ensures r.Some? <==> EmailTaken(users, email)
    ensures r.Some? ==> r.value in users && users[r.value].email == email
  {
    if EmailTaken(users, email) then
      var u :| u in users && users[u].email == email;
      Some(u)
    else None
  }

  /** `login` as written: both fields present, then a user holding the email exactly as given
      (the login route does not sanitize it), then a matching password. */
  function Login(users: map<UserId, User>, email: string, password: string, c: Collaborators): (r: Result<AuthAnswer>)
    requires EmailsUnique(users)
    ensures r == Err(BadRequestError) <==> email == "" || password == ""
    ensures email != "" && password != "" && !EmailTaken(users, email) ==> r == Err(UnauthenticatedError)
    ensures r.Ok? <==>
              email != "" && password != "" &&
              exists u :: u in users && users[u].email == email && c.compare(password, users[u].password)
    ensures r.Err? ==> r.error == BadRequestError || r.error == UnauthenticatedError
    ensures r.Ok? ==>
              && r.value.id in users && r.value.user == users[r.value.id]
              && r.value.user.email == email
              && c.compare(password, r.value.user.password)
              && r.value.token == c.createJWT(r.value.id, r.value.user)
  {
    if email == "" || password == "" then Err(BadRequestError)
    else
      match FindByEmail(users, email)
      case None => Err(UnauthenticatedError)
      case Some(id) =>
        var identifiedUser := users[id];
        if !c.compare(password, identifiedUser.password) then Err(UnauthenticatedError)
        else Ok(AuthAnswer(id, identifiedUser, c.createJWT(id, identifiedUser)))
  }

  /** `login` with the email sanitized as the signup route sanitizes it: the presence checks are
      those of Login, and the lookup uses the normalized email. */
  function LoginNormalized(users: map<UserId, User>, email: string, password: string, c: Collaborators): (r: Result<AuthAnswer>)
    requires EmailsUnique(users)
    ensures email == "" || password == "" ==> r == Err(BadRequestError)
    ensures r.Ok? <==>
              email != "" && password != "" && c.normalizeEmail(email) != "" &&
              exists u :: u in users && users[u].email == c.normalizeEmail(email) && c.compare(password, users[u].password)
    ensures r.Ok? ==> r.value.user.email == c.normalizeEmail(email) && r.value.id in users && r.value.user == users[r.value.id]
  {
    if email == "" || password == "" then Err(BadRequestError)
    else Login(users, c.normalizeEmail(email), password, c)
  }

  lemma SignupPreservesInvariant(db: Db, name: string, email: string, password: string, image: Path,
                                 c: Collaborators, newId: UserId, fault: Fault)
    requires Invariant(db)
    requires newId !in db.users
    ensures Invariant(Signup(db, name, email, password, image, c, newId, fault).after)
  {
    var o := Signup(db, name, email, password, image, c, newId, fault);
    if o.result.Ok? {
      var a := o.after;
      forall p | p in a.places ensures Lists(a.users, a.places[p].creator, p) {
        assert Lists(db.users, db.places[p].creator, p);
      }
      forall u, p | Lists(a.users, u, p) ensures p in a.places && a.places[p].creator == u {
        assert Lists(db.users, u, p);
      }
      assert forall u :: u in db.users ==> db.users[u].email != c.normalizeEmail(email);
    }
  }

  /** Signing up and then logging in with the same email and password finds the new user,
      provided the email is already in normalized form and the password comparison accepts the
      hash it was stored under. */
  lemma SignupThenLogin(db: Db, name: string, email: string, password: string, image: Path,
                        c: Collaborators, newId: UserId)
    requires Invariant(db)
    requires newId !in db.users
    requires email != ""
    requires c.normalizeEmail(email) == email
    requires c.compare(password, c.hash(password))
    requires Signup(db, name, email, password, image, c, newId, NoFault).result.Ok?
    ensures EmailsUnique(Signup(db, name, email, password, image, c, newId, NoFault).after.users)
    ensures var o := Signup(db, name, email, password, image, c, newId, NoFault);
            Login(o.after.users, email, password, c) == o.result
  {
    var o := Signup(db, name, email, password, image, c, newId, NoFault);
    SignupPreservesInvariant(db, name, email, password, image, c, newId, NoFault);
    assert o.after.users[newId].email == email;
    assert FindByEmail(o.after.users, email) == Some(newId);
  }

  /** As written, an email that sanitizing changes cannot log in as given: signup stored the
      normalized form, login looks up the raw one, and no one else holds the raw one. */
  lemma SignupThenRawLoginFails(db: Db, name: string, email: string, password: string, image: Path,
                                c: Collaborators, newId: UserId)
    requires Invariant(db)
    requires newId !in db.users
    requires email != ""
    requires c.normalizeEmail(email) != email
    requires !EmailTaken(db.users, email)
    requires Signup(db, name, email, password, image, c, newId, NoFault).result.Ok?
    ensures EmailsUnique(Signup(db, name, email, password, image, c, newId, NoFault).after.users)
    ensures var o := Signup(db, name, email, password, image, c, newId, NoFault);
            Login(o.after.users, email, password, c) == Err(UnauthenticatedError)
  {
    var o := Signup(db, name, email, password, image, c, newId, NoFault);
    SignupPreservesInvariant(db, name, email, password, image, c, newId, NoFault);
    assert o.after.users[newId].email != email;
    assert !EmailTaken(o.after.users, email) by {
      forall u | u in o.after.users ensures o.after.users[u].email != email {
        if u != newId { assert o.after.users[u] == db.users[u]; }
      }
    }
  }

  /** With login sanitizing the email as signup does, signing up and logging in with the same
      email and password finds the new user for every email. */
  lemma SignupThenNormalizedLogin(db: Db, name: string, email: string, password: string, image: Path,
                                  c: Collaborators, newId: UserId)
    requires Invariant(db)
    requires newId !in db.users
    requires email != "" && c.normalizeEmail(email) != ""
    requires c.compare(password, c.hash(password))
    requires Signup(db, name, email, password, image, c, newId, NoFault).result.Ok?
    ensures EmailsUnique(Signup(db, name, email, password, image, c, newId, NoFault).after.users)
    ensures var o := Signup(db, name, email, password, image, c, newId, NoFault);
            LoginNormalized(o.after.users, email, password, c) == o.result
  {
    var o := Signup(db, name, email, password, image, c, newId, NoFault);
    SignupPreservesInvariant(db, name, email, password, image, c, newId, NoFault);
    var address := c.normalizeEmail(email);
    assert o.after.users[newId].email == address;
    assert FindByEmail(o.after.users, address) == Some(newId);
  }
}
