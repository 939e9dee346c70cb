/** The store the controllers write to: the place and user collections, updated request by
    request. A transaction's writes are staged in locals and become the new collections only at
    commit; a failure before that leaves both collections untouched. Each method is proved to
    leave exactly the state, and give exactly the answer, of the controller function it models,
    and to keep the store's invariant. */
module Store {
  import opened Errors
  import opened Models
  import opened Database
  import Places
  import Users

  class Store {
    var places: map<PlaceId, Place>
    var users: map<UserId, User>
    /** Image paths handed to the asset store for deletion; the deletion itself runs detached. */
    ghost var unlinked: seq<Path>

    ghost function State(): Db
      reads this
    {
      Db(places, users, unlinked)
    }

    ghost predicate Valid()
      reads this
    {
      Invariant(State())
    }

    constructor ()
      ensures Valid()
      ensures State() == Db(map[], map[], [])
    {
      places := map[];
      users := map[];
      unlinked := [];
    }

    /** `createPlace` (with the owner's save inside the session). */
    method CreatePlace(userId: UserId, title: string, description: string, address: string, image: Path,
                       inputsValid: bool, newId: PlaceId, fault: Fault) returns (r: Result<(PlaceId, Place)>)
      requires Valid()
      requires newId !in places
      modifies this
      ensures Valid()
      ensures Outcome(State(), r) ==
              Places.CreatePlace(old(State()), userId, title, description, address, image, inputsValid, newId, fault)
    {
      if !inputsValid {
        return Err(BadRequestError);
      }
      var createdPlace := Places.NewPlace(userId, title, description, address, image);
      if fault == LookupFault {
        return Err(CustomError);
      }
      if userId !in users {
        return Err(NotFoundError);
      }
      var user := users[userId];
      // session writes: the place insert, then the push onto the owner's list and its save
      var stagedPlaces := places[newId := createdPlace];
      if fault == PlaceWriteFault {
        return Err(CustomError);
      }
      user := user.(places := user.places + [newId]);
      var stagedUsers := users[userId := user];
      if fault == UserWriteFault || fault == CommitFault {
        return Err(CustomError);
      }
      places, users := stagedPlaces, stagedUsers;
      r := Ok((newId, createdPlace));
      Places.CreatePlacePreservesInvariant(old(State()), userId, title, description, address, image, inputsValid, newId, fault);
    }

    /** `updatePlace`. */
    method UpdatePlace(pid: PlaceId, userId: UserId, title: string, description: string,
                       inputsValid: bool, fault: Fault) returns (r: Result<Place>)
      requires Valid()
      modifies this
      ensures Valid()
      ensures Outcome(State(), r) == Places.UpdatePlace(old(State()), pid, userId, title, description, inputsValid, fault)
    {
      if !inputsValid {
        return Err(BadRequestError);
      }
      if title == "" || description == "" {
        return Err(BadRequestError);
      }
      if fault == LookupFault {
        return Err(CustomError);
      }
      if pid !in places {
        return Err(NotFoundError);
      }
      var place := places[pid];
      if place.creator != userId {
        return Err(UnauthenticatedError);
      }
      place := place.(title := title);
      place := place.(description := description);
      if fault == PlaceWriteFault {
        return Err(CustomError);
      }
      places := places[pid := place];
      r := Ok(place);
      Places.UpdatePlacePreservesInvariant(old(State()), pid, userId, title, description, inputsValid, fault);
    }

    /** `deletePlace`: the transaction removes the place and pulls its id from the creator's
        list; after the commit the image path is scheduled for deletion. */
    method DeletePlace(pid: PlaceId, userId: UserId, fault: Fault) returns (r: Result<Place>)
      requires Valid()
      modifies this
      ensures Valid()
      ensures Outcome(State(), r) == Places.DeletePlace(old(State()), pid, userId, fault)
    {
      if fault == LookupFault {
        return Err(CustomError);
      }
      if pid !in places {
        return Err(NotFoundError);
      }
      var deletedPlace := places[pid];
      if deletedPlace.creator !in users {
        return Err(UncaughtError);
      }
      if deletedPlace.creator != userId {
        return Err(UnauthenticatedError);
      }
      var imagePath := deletedPlace.image;
      // session writes: delete the place, then pull it from the creator and save the creator
      var stagedPlaces := places - {pid};
      if fault == PlaceWriteFault {
        return Err(CustomError);
      }
      var creator := users[deletedPlace.creator];
      creator := creator.(places := Pull(creator.places, pid));
      var stagedUsers := users[deletedPlace.creator := creator];
      if fault == UserWriteFault || fault == CommitFault {
        return Err(CustomError);
      }
      places, users := stagedPlaces, stagedUsers;
      unlinked := unlinked + [imagePath];
      r := Ok(deletedPlace);
      Places.DeletePlacePreservesInvariant(old(State()), pid, userId, fault);
    }

    /** `signup`, on the email as the route has normalized it. */
    method Signup(name: string, email: string, password: string, image: Path,
                  c: Users.Collaborators, newId: UserId, fault: Fault) returns (r: Result<Users.AuthAnswer>)
      requires Valid()
      requires newId !in users
      modifies this
      ensures Valid()
      ensures Outcome(State(), r) == Users.Signup(old(State()), name, email, password, image, c, newId, fault)
    {
      if !Users.SignupChecks(name, email, password, c) {
        return Err(BadRequestError);
      }
      var address := c.normalizeEmail(email);
      if fault == LookupFault {
        return Err(UncaughtError);
      }
      if EmailTaken(users, address) {
        return Err(BadRequestError);
      }
      var hashedPassword := c.hash(password);
      if fault == UserWriteFault {
        return Err(UncaughtError);
      }
      var createdUser := User(name, address, hashedPassword, image, []);
      users := users[newId := createdUser];
      var token := c.createJWT(newId, createdUser);
      r := Ok(Users.AuthAnswer(newId, createdUser, token));
      Users.SignupPreservesInvariant(old(State()), name, email, password, image, c, newId, fault);
    }
  }

  /** The scenario of one user creating a place, another failing to delete it, and the owner
      deleting it, driven through the store. */
  method OwnershipScenario(c: Users.Collaborators)
    requires c.normalizeEmail("u1@example.com") == "u1@example.com" && c.isEmail("u1@example.com")
    requires c.normalizeEmail("u2@example.com") == "u2@example.com" && c.isEmail("u2@example.com")
  {
    var s := new Store();
    var r1 := s.Signup("U1", "u1@example.com", "secret1", "uploads/u1.png", c, "u1", NoFault);
    assert r1.Ok?;
    var r2 := s.Signup("U2", "u2@example.com", "secret2", "uploads/u2.png", c, "u2", NoFault);
    assert r2.Ok?;
    var c := s.CreatePlace("u1", "Cafe", "desc", "Fifth Avenue", "/img/1.png", true, "p1", NoFault);
    assert c == Ok(("p1", Place("Cafe", "desc", "Fifth Avenue", DefaultLocation, "/img/1.png", "u1")));
    assert Places.GetPlacesByUserId(s.State(), "u1").value.count == Some(1);
    var d2 := s.DeletePlace("p1", "u2", NoFault);
    assert d2 == Err(UnauthenticatedError);
    assert "p1" in s.places && "p1" in s.users["u1"].places;
    var d1 := s.DeletePlace("p1", "u1", NoFault);
    assert d1.Ok?;
    assert Places.GetPlaceById(s.places, "p1") == Err(NotFoundError);
    assert Places.GetPlacesByUserId(s.State(), "u1").value.count == Some(0);
    assert s.unlinked == ["/img/1.png"];
  }
}
