/** The in-memory picture of the document store: the place collection, the user collection and
    the asset paths whose deletion has been scheduled. Also the store's consistency invariant and
    the two list operations the controllers rely on: Mongoose's `pull` and `populate`. */
module Database {
  import opened Errors
  import opened Models

  /** The storage step at which a request fails, chosen by the environment. */
  datatype Fault =
    | NoFault
    | LookupFault       // the initial findById / findOne rejects
    | PlaceWriteFault   // the write to the place document rejects
    | UserWriteFault    // the save of the owning user rejects
    | CommitFault       // committing the session's transaction rejects

  datatype Db = Db(
    places: map<PlaceId, Place>,
    users: map<UserId, User>,
    unlinked: seq<Path>)   // image paths handed to the asset store for deletion, in order

  /** What an operation leaves behind: the store afterwards and the answer to the caller. */
  datatype Outcome<T> = Outcome(after: Db, result: Result<T>)

  /** User `u` lists place id `p` among its places. */
  ghost predicate Lists(users: map<UserId, User>, u: UserId, p: PlaceId)
  {
    u in users && p in users[u].places
  }

  /** Place membership is the inverse of `Place.creator`: every place's creator exists and lists
      it, and every id a user lists is a stored place created by that user. */
  ghost predicate Consistent(places: map<PlaceId, Place>, users: map<UserId, User>)
  {
    && (forall p :: p in places ==> Lists(users, places[p].creator, p))
    && (forall u, p :: Lists(users, u, p) ==> p in places && places[p].creator == u)
  }

  ghost predicate Distinct<T>(s: seq<T>)
  {
    forall i, j :: 0 <= i < j < |s| ==> s[i] != s[j]
  }

  /** No user lists the same place twice. */
  ghost predicate ListsDistinct(users: map<UserId, User>)
  {
    forall u :: u in users ==> Distinct(users[u].places)
  }

  /** Some user already holds `email` (what `User.findOne({ email })` decides). */
  predicate EmailTaken(users: map<UserId, User>, email: string)
  {
    exists u :: u in users && users[u].email == email
  }

  ghost predicate EmailsUnique(users: map<UserId, User>)
  {
    forall u, v :: u in users && v in users && users[u].email == users[v].email ==> u == v
  }

  /** The invariant the controllers keep between requests. */
  ghost predicate Invariant(db: Db)
  {
    && Consistent(db.places, db.users)
    && ListsDistinct(db.users)
    && EmailsUnique(db.users)
  }

  /** Mongoose's array `pull`: every occurrence of `p` leaves the list; the rest keep their order. */
  function Pull(ids: seq<PlaceId>, p: PlaceId): (r: seq<PlaceId>)
    ensures p !in r
    ensures forall q :: q != p ==> (q in r <==> q in ids)
    ensures |r| <= |ids|
    ensures p !in ids ==> r == ids
    ensures multiset(r) == multiset(ids)[p := 0]
  {
    if ids == [] then []
    else
      assert ids == [ids[0]] + ids[1..];
      if ids[0] == p then Pull(ids[1..], p)
      else [ids[0]] + Pull(ids[1..], p)
  }

  /** Pulling distributes over concatenation: the survivors of each part keep their relative
      order. With `Pull([x], p)` (empty when `x == p`, else `[x]`) this fixes Pull as the
      order-preserving removal of `p`. */
  lemma {:induction false} PullAppend(a: seq<PlaceId>, b: seq<PlaceId>, p: PlaceId)
    ensures Pull(a + b, p) == Pull(a, p) + Pull(b, p)
  {
    if a == [] {
      assert a + b == b;
    } else {
      assert (a + b)[0] == a[0] && (a + b)[1..] == a[1..] + b;
      PullAppend(a[1..], b, p);
    }
  }

  /** In a duplicate-free list, pulling the id found at index `i` removes exactly that entry and
      keeps every other entry where it was. */
  lemma PullAt(ids: seq<PlaceId>, i: nat)
    requires Distinct(ids)
    requires i < |ids|
    ensures Pull(ids, ids[i]) == ids[..i] + ids[i + 1..]
  {
    var p := ids[i];
    var front, back := ids[..i], ids[i + 1..];
    assert ids == front + [p] + back;
    assert p !in front by {
      forall k | 0 <= k < i ensures ids[k] != p { }
    }
    assert p !in back by {
      forall k | i < k < |ids| ensures ids[k] != p { }
    }
    assert Pull([p], p) == [] by { assert [p][1..] == []; }
    PullAppend(front, [p], p);
    assert Pull(front + [p], p) == front;
    PullAppend(front + [p], back, p);
  }

  /** Pulling keeps a duplicate-free list duplicate-free. */
  lemma {:induction false} PullPreservesDistinct(ids: seq<PlaceId>, p: PlaceId)
    requires Distinct(ids)
    ensures Distinct(Pull(ids, p))
  {
    if ids != [] {
      assert Distinct(ids[1..]) by {
        forall i, j | 0 <= i < j < |ids[1..]| ensures ids[1..][i] != ids[1..][j] {
          assert ids[1..][i] == ids[i + 1] && ids[1..][j] == ids[j + 1];
        }
      }
      PullPreservesDistinct(ids[1..], p);
      if ids[0] != p {
        var rest := Pull(ids[1..], p);
        assert ids[0] !in ids[1..] by {
          forall k | 0 <= k < |ids[1..]| ensures ids[1..][k] != ids[0] {
            assert ids[1..][k] == ids[k + 1];
          }
        }
        assert ids[0] !in rest;
        var r := [ids[0]] + rest;
        forall i, j | 0 <= i < j < |r| ensures r[i] != r[j] {
          if i == 0 {
            assert r[j] == rest[j - 1];
          } else {
            assert r[i] == rest[i - 1] && r[j] == rest[j - 1];
          }
        }
      }
    }
  }

  /** Mongoose's `populate` of an id list: each id is replaced by its stored document, in list
      order; an id without a document is dropped. */
  function Populate(ids: seq<PlaceId>, places: map<PlaceId, Place>): (r: seq<Place>)
    ensures |r| <= |ids|
    ensures forall x :: x in r ==> exists p :: p in ids && p in places && places[p] == x
    ensures (forall i :: 0 <= i < |ids| ==> ids[i] in places) ==>
              |r| == |ids| && forall i :: 0 <= i < |ids| ==> r[i] == places[ids[i]]
  {
    if ids == [] then []
    else if ids[0] in places then [places[ids[0]]] + Populate(ids[1..], places)
    else Populate(ids[1..], places)
  }

  /** The ids of the places whose creator is `u`. */
  ghost function OwnedBy(places: map<PlaceId, Place>, u: UserId): set<PlaceId>
  {
    set p | p in places && places[p].creator == u
  }

  ghost function Elements<T>(s: seq<T>): set<T>
  {
    set x | x in s
  }

  /** A duplicate-free list has as many distinct elements as entries. */
  lemma {:induction false} DistinctElements<T>(s: seq<T>)
    requires Distinct(s)
    ensures |Elements(s)| == |s|
  {
    if s != [] {
      var tail := s[1..];
      assert Distinct(tail) by {
        forall i, j | 0 <= i < j < |tail| ensures tail[i] != tail[j] {
          assert tail[i] == s[i + 1] && tail[j] == s[j + 1];
        }
      }
      DistinctElements(tail);
      assert s[0] !in Elements(tail) by {
        forall k | 0 <= k < |tail| ensures tail[k] != s[0] {
          assert tail[k] == s[k + 1];
        }
      }
      assert Elements(s) == {s[0]} + Elements(tail) by {
        assert s == [s[0]] + tail;
      }
    }
  }

  /** Under the invariant, a user's list holds exactly the places it created, each once, so the
      list length is the number of places it owns. */
  lemma OwnedCountIsListLength(db: Db, u: UserId)
    requires Invariant(db)
    requires u in db.users
    ensures OwnedBy(db.places, u) == Elements(db.users[u].places)
    ensures |OwnedBy(db.places, u)| == |db.users[u].places|
  {
    var ids := db.users[u].places;
    forall p | p in OwnedBy(db.places, u) ensures p in Elements(ids) {
      assert Lists(db.users, db.places[p].creator, p);
    }
    forall p | p in Elements(ids) ensures p in OwnedBy(db.places, u) {
      assert Lists(db.users, u, p);
    }
    DistinctElements(ids);
  }
}
