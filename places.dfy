/** The place controller as functions from the store before a request to the store after it and
    the answer. Checks run in the source's order: input validation, then the lookup (a storage
    failure there, then NotFound), then ownership, and only then the writes. */
module Places {
  import opened Errors
  import opened Models
  import opened Database

  /** The answer of `getPlacesByUserId`: the user's populated places and the `count` field of the
      response, absent when the response carries no count. */
  datatype PlacesPage = PlacesPage(places: seq<Place>, count: Option<nat>)

  /** `getPlaceById`: the stored place, or NotFound. */
  function GetPlaceById(places: map<PlaceId, Place>, pid: PlaceId): (r: Result<Place>)
    ensures r.Ok? <==> pid in places
    ensures r.Ok? ==> r.value == places[pid]
    ensures r.Err? ==> r.error == NotFoundError
  {
    if pid in places then Ok(places[pid]) else Err(NotFoundError)
  }

  /** `getPlacesByUserId` as written: the response's `count` reads `length` of the user document,
      which has none, so the count is missing from every answer. */
  function GetPlacesByUserIdAsWritten(db: Db, uid: UserId): (r: Result<PlacesPage>)
    ensures r.Err? <==> uid !in db.users
    ensures r.Err? ==> r.error == NotFoundError
    ensures r.Ok? ==> r.value.count == None
    ensures r.Ok? ==> r.value.places == GetPlacesByUserId(db, uid).value.places
  {
    if uid !in db.users then Err(NotFoundError)
    else Ok(PlacesPage(Populate(db.users[uid].places, db.places), None))
  }

  /** `getPlacesByUserId` with the count the response evidently means: the number of places
      returned. Under the store invariant, the places are exactly those of the user's list, in
      list order. */
  function GetPlacesByUserId(db: Db, uid: UserId): (r: Result<PlacesPage>)
    ensures r.Err? <==> uid !in db.users
    ensures r.Err? ==> r.error == NotFoundError
    ensures r.Ok? ==> r.value.count == Some(|r.value.places|)
    ensures r.Ok? && Consistent(db.places, db.users) ==>
              var ids := db.users[uid].places;
              |r.value.places| == |ids| &&
              forall i :: 0 <= i < |ids| ==> ids[i] in db.places && r.value.places[i] == db.places[ids[i]]
  {
    if uid !in db.users then Err(NotFoundError)
    else
      var ids := db.users[uid].places;
      assert Consistent(db.places, db.users) ==> forall i :: 0 <= i < |ids| ==> ids[i] in db.places by {
        if Consistent(db.places, db.users) {
          forall i | 0 <= i < |ids| ensures ids[i] in db.places {
            assert Lists(db.users, uid, ids[i]);
          }
        }
      }
      var found := Populate(ids, db.places);
      Ok(PlacesPage(found, Some(|found|)))
  }

  /** The place `createPlace` builds from the request. */
  function NewPlace(userId: UserId, title: string, description: string, address: string, image: Path): Place
  {
    Place(title, description, address, DefaultLocation, image, userId)
  }

  /** For every known user the response as written carries no count, while the count the
      response evidently means is the number of places the user lists. */
  lemma GetPlacesByUserIdAsWrittenOmitsCount(db: Db, uid: UserId)
    requires Consistent(db.places, db.users)
    requires uid in db.users
    ensures GetPlacesByUserIdAsWritten(db, uid).value.count == None
    ensures GetPlacesByUserId(db, uid).value.count == Some(|db.users[uid].places|)
  {
  }

  /** `createPlace` with the owner's save inside the session: the place insert and the push onto
      the owner's list become visible together at commit, or not at all. */
  function CreatePlace(db: Db, userId: UserId, title: string, description: string, address: string,
                       image: Path, inputsValid: bool, newId: PlaceId, fault: Fault): (o: Outcome<(PlaceId, Place)>)
    requires newId !in db.places
    ensures !inputsValid ==> o.result == Err(BadRequestError)
    ensures inputsValid && fault == LookupFault ==> o.result == Err(CustomError)
    ensures inputsValid && fault != LookupFault && userId !in db.users ==> o.result == Err(NotFoundError)
    ensures inputsValid && userId in db.users && fault != NoFault ==> o.result == Err(CustomError)
    ensures o.result.Ok? <==> inputsValid && fault == NoFault && userId in db.users
    ensures o.result.Err? ==> o.after == db
    ensures o.result.Ok? ==>
              var created := o.result.value.1;
              && o.result.value.0 == newId
              && created.creator == userId
              && created.image == image
              && created.location == DefaultLocation
              && created.title == title && created.description == description && created.address == address
              && o.after.places.Keys == db.places.Keys + {newId}
              && o.after.places[newId] == created
              && (forall p :: p in db.places ==> o.after.places[p] == db.places[p])
              && o.after.users.Keys == db.users.Keys
              && o.after.users[userId].places == db.users[userId].places + [newId]
              && o.after.users[userId] == db.users[userId].(places := o.after.users[userId].places)
              && (forall u :: u in db.users && u != userId ==> o.after.users[u] == db.users[u])
              && o.after.unlinked == db.unlinked
  {
    if !inputsValid then Outcome(db, Err(BadRequestError))
    else
      var created := NewPlace(userId, title, description, address, image);
      if fault == LookupFault then Outcome(db, Err(CustomError))
      else if userId !in db.users then Outcome(db, Err(NotFoundError))
      else if fault != NoFault then Outcome(db, Err(CustomError))
      else
        var user := db.users[userId];
        var owner := user.(places := user.places + [newId]);
        Outcome(db.(places := db.places[newId := created], users := db.users[userId := owner]), Ok((newId, created)))
  }

  /** `createPlace` as written: the owner is saved outside the session, so when the commit
      fails the owner's list already holds the id of a place that was never stored. Every other
      case behaves as CreatePlace. */
  function CreatePlaceAsWritten(db: Db, userId: UserId, title: string, description: string, address: string,
                                image: Path, inputsValid: bool, newId: PlaceId, fault: Fault): (o: Outcome<(PlaceId, Place)>)
    requires newId !in db.places
    ensures o.result.Ok? <==> inputsValid && fault == NoFault && userId in db.users
    ensures fault != CommitFault ==>
              o == CreatePlace(db, userId, title, description, address, image, inputsValid, newId, fault)
    ensures o.result.Err? && o.after != db ==>
              && fault == CommitFault && o.result.error == CustomError && newId !in o.after.places
              && o.after.places == db.places
              && userId in db.users && userId in o.after.users
              && o.after.users[userId].places == db.users[userId].places + [newId]
  {
    if inputsValid && fault == CommitFault && userId in db.users then
      var user := db.users[userId];
      Outcome(db.(users := db.users[userId := user.(places := user.places + [newId])]), Err(CustomError))
    else CreatePlace(db, userId, title, description, address, image, inputsValid, newId, fault)
  }

  /** `updatePlace`: only `title` and `description` of the caller's own place change. */
  function UpdatePlace(db: Db, pid: PlaceId, userId: UserId, title: string, description: string,
                       inputsValid: bool, fault: Fault): (o: Outcome<Place>)
    ensures !inputsValid || title == "" || description == "" ==> o.result == Err(BadRequestError)
    ensures inputsValid && title != "" && description != "" && fault == LookupFault ==> o.result == Err(CustomError)
    ensures inputsValid && title != "" && description != "" && fault != LookupFault && pid !in db.places ==>
              o.result == Err(NotFoundError)
    ensures (inputsValid && title != "" && description != "" && fault != LookupFault && pid in db.places &&
             db.places[pid].creator != userId) ==> o.result == Err(UnauthenticatedError)
    ensures (inputsValid && title != "" && description != "" && fault == PlaceWriteFault && pid in db.places &&
             db.places[pid].creator == userId) ==> o.result == Err(CustomError)
    ensures o.result.Ok? <==>
              && inputsValid && title != "" && description != ""
              && fault != LookupFault && fault != PlaceWriteFault
              && pid in db.places && db.places[pid].creator == userId
    ensures o.result.Err? ==> o.after == db
    ensures o.result.Ok? ==>
              var previous := db.places[pid];
              var updated := o.result.value;
              && updated.title == title && updated.description == description
              && updated.address == previous.address && updated.location == previous.location
              && updated.image == previous.image && updated.creator == previous.creator
              && o.after.places.Keys == db.places.Keys
              && o.after.places[pid] == updated
              && (forall p :: p in db.places && p != pid ==> o.after.places[p] == db.places[p])
              && o.after.users == db.users
              && o.after.unlinked == db.unlinked
  {
    if !inputsValid then Outcome(db, Err(BadRequestError))
    else if title == "" || description == "" then Outcome(db, Err(BadRequestError))
    else if fault == LookupFault then Outcome(db, Err(CustomError))
    else if pid !in db.places then Outcome(db, Err(NotFoundError))
    else
      var place := db.places[pid];
      if place.creator != userId then Outcome(db, Err(UnauthenticatedError))
      else
        var updated := place.(title := title, description := description);
        if fault == PlaceWriteFault then Outcome(db, Err(CustomError))
        else Outcome(db.(places := db.places[pid := updated]), Ok(updated))
  }

  /** `deletePlace`: the caller's own place leaves the place collection and its creator's list
      together, and its image path is scheduled for deletion. */
  function DeletePlace(db: Db, pid: PlaceId, userId: UserId, fault: Fault): (o: Outcome<Place>)
    ensures fault == LookupFault ==> o.result == Err(CustomError)
    ensures fault != LookupFault && pid !in db.places ==> o.result == Err(NotFoundError)
    ensures fault != LookupFault && pid in db.places && db.places[pid].creator !in db.users ==>
              o.result == Err(UncaughtError)
    ensures (fault != LookupFault && pid in db.places && db.places[pid].creator in db.users &&
             db.places[pid].creator != userId) ==> o.result == Err(UnauthenticatedError)
    ensures (fault != NoFault && pid in db.places && db.places[pid].creator == userId && userId in db.users) ==>
              o.result == Err(CustomError)
    ensures o.result.Ok? <==>
              fault == NoFault && pid in db.places && db.places[pid].creator == userId && userId in db.users
    ensures o.result.Err? ==> o.after == db
    ensures o.result.Ok? ==>
              && o.result.value == db.places[pid]
              && o.after.places.Keys == db.places.Keys - {pid}
              && (forall p :: p in o.after.places ==> o.after.places[p] == db.places[p])
              && o.after.users.Keys == db.users.Keys
              && o.after.users[userId].places == Pull(db.users[userId].places, pid)
              && pid !in o.after.users[userId].places
              && multiset(o.after.users[userId].places) == multiset(db.users[userId].places)[pid := 0]
              && o.after.users[userId] == db.users[userId].(places := o.after.users[userId].places)
              && (forall u :: u in db.users && u != userId ==> o.after.users[u] == db.users[u])
              && o.after.unlinked == db.unlinked + [db.places[pid].image]
  {
    if fault == LookupFault then Outcome(db, Err(CustomError))
    else if pid !in db.places then Outcome(db, Err(NotFoundError))
    else
      var place := db.places[pid];
      if place.creator !in db.users then Outcome(db, Err(UncaughtError))   // populated creator is null
      else if place.creator != userId then Outcome(db, Err(UnauthenticatedError))
      else
        var imagePath := place.image;
        if fault != NoFault then Outcome(db, Err(CustomError))
        else
          var creator := db.users[place.creator];
          var owner := creator.(places := Pull(creator.places, pid));
          Outcome(Db(db.places - {pid}, db.users[place.creator := owner], db.unlinked + [imagePath]), Ok(place))
  }

  // ---------------------------------------------------------------------------------------
  // The invariant across requests

  lemma CreatePlacePreservesInvariant(db: Db, userId: UserId, title: string, description: string,
                                      address: string, image: Path, inputsValid: bool, newId: PlaceId, fault: Fault)
    requires Invariant(db)
    requires newId !in db.places
    ensures Invariant(CreatePlace(db, userId, title, description, address, image, inputsValid, newId, fault).after)
  {
    var o := CreatePlace(db, userId, title, description, address, image, inputsValid, newId, fault);
    if o.result.Ok? {
      var ids := db.users[userId].places;
      var a := Db(db.places[newId := NewPlace(userId, title, description, address, image)],
                  db.users[userId := db.users[userId].(places := ids + [newId])], db.unlinked);
      assert o.after == a;
      assert newId !in ids by {
        if newId in ids { assert Lists(db.users, userId, newId); }
      }
      forall p | p in a.places ensures Lists(a.users, a.places[p].creator, p) {
        if p != newId { assert Lists(db.users, db.places[p].creator, p); }
      }
      forall u, p | Lists(a.users, u, p) ensures p in a.places && a.places[p].creator == u {
        if u != userId || p != newId {
          assert Lists(db.users, u, p);
        }
      }
      assert Distinct(ids + [newId]) by {
        var s := ids + [newId];
        forall i, j | 0 <= i < j < |s| ensures s[i] != s[j] {
          if j == |ids| { assert s[i] == ids[i]; }
          else { assert s[i] == ids[i] && s[j] == ids[j]; }
        }
      }
    }
  }

  /** The case the source's session leaves open: a commit failure after the owner was saved
      outside the session leaves the owner listing a place id with no stored place. */
  lemma CreatePlaceAsWrittenCommitFaultBreaksConsistency(db: Db, userId: UserId, title: string, description: string,
                                                         address: string, image: Path, newId: PlaceId)
    requires Invariant(db)
    requires newId !in db.places
    requires userId in db.users
    ensures var o := CreatePlaceAsWritten(db, userId, title, description, address, image, true, newId, CommitFault);
            && o.result == Err(CustomError)
            && Lists(o.after.users, userId, newId) && newId !in o.after.places
            && !Invariant(o.after)
  {
    var o := CreatePlaceAsWritten(db, userId, title, description, address, image, true, newId, CommitFault);
    assert o.after.users[userId].places == db.users[userId].places + [newId];
    assert Lists(o.after.users, userId, newId);
    assert !Consistent(o.after.places, o.after.users);
  }

  /** With the owner's save inside the session the same failure leaves the store as it was. */
  lemma CreatePlaceCommitFaultLeavesStore(db: Db, userId: UserId, title: string, description: string,
                                          address: string, image: Path, newId: PlaceId)
    requires newId !in db.places
    requires userId in db.users
    ensures CreatePlace(db, userId, title, description, address, image, true, newId, CommitFault)
            == Outcome(db, Err(CustomError))
  {
  }

  lemma UpdatePlacePreservesInvariant(db: Db, pid: PlaceId, userId: UserId, title: string, description: string,
                                      inputsValid: bool, fault: Fault)
    requires Invariant(db)
    ensures Invariant(UpdatePlace(db, pid, userId, title, description, inputsValid, fault).after)
  {
    var o := UpdatePlace(db, pid, userId, title, description, inputsValid, fault);
    if o.result.Ok? {
      var a := o.after;
      forall p | p in a.places ensures Lists(a.users, a.places[p].creator, p) {
        assert Lists(db.users, db.places[p].creator, p);
      }
      forall u, p | Lists(a.users, u, p) ensures p in a.places && a.places[p].creator == u {
        assert Lists(db.users, u, p);
      }
    }
  }

  lemma DeletePlacePreservesInvariant(db: Db, pid: PlaceId, userId: UserId, fault: Fault)
    requires Invariant(db)
    ensures Invariant(DeletePlace(db, pid, userId, fault).after)
  {
    var o := DeletePlace(db, pid, userId, fault);
    if o.result.Ok? {
      var a := o.after;
      forall p | p in a.places ensures Lists(a.users, a.places[p].creator, p) {
        assert Lists(db.users, db.places[p].creator, p);
      }
      forall u, p | Lists(a.users, u, p) ensures p in a.places && a.places[p].creator == u {
        assert Lists(db.users, u, p);
      }
      PullPreservesDistinct(db.users[userId].places, pid);
    }
  }

  // ---------------------------------------------------------------------------------------
  // Requests in sequence

  /** After a successful create, the owner's places end with the new place and the count grows
      by one. */
  lemma CreateThenListed(db: Db, userId: UserId, title: string, description: string,
                         address: string, image: Path, newId: PlaceId)
    requires Invariant(db)
    requires newId !in db.places
    requires userId in db.users
    ensures var o := CreatePlace(db, userId, title, description, address, image, true, newId, NoFault);
            var before := GetPlacesByUserId(db, userId);
            var after := GetPlacesByUserId(o.after, userId);
            && before.Ok? && after.Ok?
            && after.value.places == before.value.places + [NewPlace(userId, title, description, address, image)]
            && after.value.count == Some(|db.users[userId].places| + 1)
  {
    var o := CreatePlace(db, userId, title, description, address, image, true, newId, NoFault);
    CreatePlacePreservesInvariant(db, userId, title, description, address, image, true, newId, NoFault);
    var before := GetPlacesByUserId(db, userId);
    var after := GetPlacesByUserId(o.after, userId);
    var expected := before.value.places + [NewPlace(userId, title, description, address, image)];
    assert |after.value.places| == |expected|;
    forall i | 0 <= i < |expected| ensures after.value.places[i] == expected[i] {
      if i < |db.users[userId].places| {
        var p := db.users[userId].places[i];
        assert Lists(db.users, userId, p);
      }
    }
  }

  /** Populating a duplicate-free list with entry `i` removed, against the places without that
      entry's place, gives the full population with entry `i` removed. */
  lemma PopulateWithout(ids: seq<PlaceId>, places: map<PlaceId, Place>, i: nat)
    requires Distinct(ids)
    requires i < |ids|
    requires forall k :: 0 <= k < |ids| ==> ids[k] in places
    ensures Populate(ids[..i] + ids[i + 1..], places - {ids[i]}) ==
            Populate(ids, places)[..i] + Populate(ids, places)[i + 1..]
  {
    var rest := ids[..i] + ids[i + 1..];
    var fewer := places - {ids[i]};
    forall k | 0 <= k < |rest| ensures rest[k] in fewer {
      var j := if k < i then k else k + 1;
      assert rest[k] == ids[j];
    }
    var full := Populate(ids, places);
    var after := Populate(rest, fewer);
    var expected := full[..i] + full[i + 1..];
    forall k | 0 <= k < |expected| ensures after[k] == expected[k] {
      var j := if k < i then k else k + 1;
      assert rest[k] == ids[j] && expected[k] == full[j];
    }
  }

  /** After a successful delete, the owner's places are the earlier ones with the deleted place
      taken out and the others in the same order; the count drops by one. */
  lemma DeleteThenListed(db: Db, pid: PlaceId, userId: UserId, i: nat)
    requires Invariant(db)
    requires DeletePlace(db, pid, userId, NoFault).result.Ok?
    requires i < |db.users[userId].places| && db.users[userId].places[i] == pid
    ensures var before := GetPlacesByUserId(db, userId);
            var after := GetPlacesByUserId(DeletePlace(db, pid, userId, NoFault).after, userId);
            && before.Ok? && after.Ok?
            && after.value.places == before.value.places[..i] + before.value.places[i + 1..]
            && after.value.count == Some(|db.users[userId].places| - 1)
  {
    var a := DeletePlace(db, pid, userId, NoFault).after;
    var ids := db.users[userId].places;
    PullAt(ids, i);
    assert a.users[userId].places == ids[..i] + ids[i + 1..];
    assert a.places == db.places - {pid};
    forall k | 0 <= k < |ids| ensures ids[k] in db.places {
      assert Lists(db.users, userId, ids[k]);
    }
    PopulateWithout(ids, db.places, i);
  }

  /** After a successful delete the place is gone: looking it up, or deleting it again (whoever
      asks), yields NotFound, and its owner's list shrinks by exactly one entry. */
  lemma DeleteThenGone(db: Db, pid: PlaceId, userId: UserId, anyCaller: UserId, fault: Fault)
    requires Invariant(db)
    requires DeletePlace(db, pid, userId, NoFault).result.Ok?
    requires fault != LookupFault
    ensures var a := DeletePlace(db, pid, userId, NoFault).after;
            && GetPlaceById(a.places, pid) == Err(NotFoundError)
            && DeletePlace(a, pid, anyCaller, fault) == Outcome(a, Err(NotFoundError))
            && |a.users[userId].places| == |db.users[userId].places| - 1
  {
    var a := DeletePlace(db, pid, userId, NoFault).after;
    DeletePlacePreservesInvariant(db, pid, userId, NoFault);
    OwnedCountIsListLength(db, userId);
    OwnedCountIsListLength(a, userId);
    assert OwnedBy(a.places, userId) == OwnedBy(db.places, userId) - {pid};
  }
}
