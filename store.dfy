/** The entity store (src/store.rs): three id-keyed tables and the two
    hand-maintained indices, each visit filed under its user (ordered by
    `visited_at`) and under its location (in insertion order, with the user
    attached when it was filed). Shared `Rc<RefCell<…>>` handles are
    modelled as ids resolved against the tables, so an in-place update of a
    user or a location is seen through every index entry naming it, as it is
    through the shared handles of the source. */
module Store {
  import opened Models
  import opened Index
  import opened Queries

  datatype StoreError =
    | EntryExists
    | EntityNotExists
    | InvalidEntity(error: ValidationError)

  datatype Result<T> = Ok(value: T) | Err(error: StoreError)

  /** The error `get_visit_user` / `get_visit_location` report for a
      missing referent. */
  function MissingReferent(field: string, id: Id): (e: StoreError)
    ensures e.InvalidEntity? && e.error.field == field && e.error.message == NotExists(id)
  {
    InvalidEntity(ValidationError(field, NotExists(id)))
  }

  /** The five maps of the store, side by side. */
  datatype Tables = Tables(users: map<Id, User>, locations: map<Id, Location>, visits: map<Id, Visit>,
                           usersVisits: map<Id, seq<Id>>, locationsVisits: map<Id, seq<LocEntry>>)

  const NoTables := Tables(map[], map[], map[], map[], map[])

  /** Every stored entity sits under its own id and passed its validator,
      and every visit names a stored user and a stored location. */
  predicate EntitiesValid(t: Tables) {
    (forall id | id in t.users :: t.users[id].id == id && ValidateUser(t.users[id]).Pass?)
    && (forall id | id in t.locations :: t.locations[id].id == id && ValidateLocation(t.locations[id]).Pass?)
    && (forall id | id in t.visits ::
          t.visits[id].id == id && ValidateVisit(t.visits[id]).Pass?
          && t.visits[id].user in t.users && t.visits[id].location in t.locations)
  }

  /** The store's invariant: the entities are consistent, and every visit
      is filed in the sorted bucket of its user and in the bucket of its
      location, each bucket free of duplicates. */
  predicate Consistent(t: Tables) {
    EntitiesValid(t)
    && UserIndexValid(t.visits, t.usersVisits)
    && LocationIndexValid(t.visits, t.users.Keys, t.locationsVisits)
  }

  // ----- the state each successful mutation leaves -----

  /** `add_user` / `update_user` once the checks pass. */
  function WithUser(t: Tables, u: User): Tables {
    t.(users := t.users[u.id := u])
  }

  /** `add_location` / `update_location` once the checks pass. */
  function WithLocation(t: Tables, l: Location): Tables {
    t.(locations := t.locations[l.id := l])
  }

  /** `add_visit` once the checks pass: filed under its user against the
      table without it, under its location with its user attached, then
      stored. */
  function WithVisit(t: Tables, v: Visit): Tables {
    t.(visits := t.visits[v.id := v],
       usersVisits := WithUserVisit(t.usersVisits, v, t.visits),
       locationsVisits := WithLocationVisit(t.locationsVisits, v, v.user))
  }

  /** `update_visit` once the checks pass: `upd` replaces `orig`; the user
      bucket is redone when the user, the time or the location changed (the
      re-insertion scanning the updated table), the location bucket only
      when the location changed. */
  function WithUpdatedVisit(t: Tables, orig: Visit, upd: Visit): Tables {
    var m := t.visits[orig.id := upd];
    t.(visits := m,
       usersVisits :=
         if orig.user != upd.user || orig.visitedAt != upd.visitedAt || orig.location != upd.location
         then WithUserVisit(WithoutUserVisit(t.usersVisits, orig), upd, m)
         else t.usersVisits,
       locationsVisits :=
         if orig.location != upd.location
         then WithLocationVisit(WithoutLocationVisit(t.locationsVisits, orig), upd, upd.user)
         else t.locationsVisits)
  }

  // ----- every mutation keeps the invariant -----

  lemma EmptyConsistent()
    ensures Consistent(NoTables) && NoTables.users == map[] && NoTables.visits == map[]
  {
    assert UserIndexValid(map[], map[]);
  }

  /** Storing a valid user, new or replacing one, keeps the store consistent. */
  lemma WithUserKeeps(t: Tables, u: User)
    requires Consistent(t) && ValidateUser(u).Pass?
    ensures Consistent(WithUser(t, u))
  {
    LocationIndexMoreUsers(t.visits, t.users.Keys, t.users.Keys + {u.id}, t.locationsVisits);
    assert t.users[u.id := u].Keys == t.users.Keys + {u.id};
  }

  /** Storing a valid location keeps the store consistent. */
  lemma WithLocationKeeps(t: Tables, l: Location)
    requires Consistent(t) && ValidateLocation(l).Pass?
    ensures Consistent(WithLocation(t, l))
  {
  }

  /** Filing a new valid visit whose user and location exist keeps the
      store consistent. */
  lemma WithVisitKeeps(t: Tables, v: Visit)
    requires Consistent(t)
    requires v.id !in t.visits && ValidateVisit(v).Pass? && v.user in t.users && v.location in t.locations
    ensures Consistent(WithVisit(t, v))
  {
    UserIndexAdd(t.visits, t.usersVisits, v);
    LocationIndexAdd(t.visits, t.users.Keys, t.locationsVisits, v);
  }

  /** Replacing a stored visit by a valid one whose user and location
      exist, and re-filing it, keeps the store consistent. */
  lemma WithUpdatedVisitKeeps(t: Tables, orig: Visit, upd: Visit)
    requires Consistent(t)
    requires orig.id in t.visits && t.visits[orig.id] == orig && upd.id == orig.id
    requires ValidateVisit(upd).Pass? && upd.user in t.users && upd.location in t.locations
    ensures Consistent(WithUpdatedVisit(t, orig, upd))
  {
    if orig.user != upd.user || orig.visitedAt != upd.visitedAt || orig.location != upd.location {
      UserIndexReindex(t.visits, t.usersVisits, orig, upd);
    } else {
      UserIndexSameKeys(t.visits, t.usersVisits, orig, upd);
    }
    if orig.location != upd.location {
      LocationIndexRelocate(t.visits, t.users.Keys, t.locationsVisits, orig, upd);
    } else {
      LocationIndexSameLocation(t.visits, t.users.Keys, t.locationsVisits, orig, upd);
    }
  }

  /** In a consistent store every visit is filed exactly once under its
      user and exactly once under its location, and nowhere else. */
  lemma FiledOnce(t: Tables, vid: Id)
    requires Consistent(t) && vid in t.visits
    ensures multiset(UserBucket(t.usersVisits, t.visits[vid].user))[vid] == 1
    ensures forall u | u != t.visits[vid].user :: vid !in UserBucket(t.usersVisits, u)
    ensures multiset(VisitIds(LocationBucket(t.locationsVisits, t.visits[vid].location)))[vid] == 1
    ensures forall l | l != t.visits[vid].location :: vid !in VisitIds(LocationBucket(t.locationsVisits, l))
  {
    UserIndexExactlyOnce(t.visits, t.usersVisits, vid);
    LocationIndexExactlyOnce(t.visits, t.users.Keys, t.locationsVisits, vid);
  }

  // ----- what the invariant gives the queries -----

  /** A user's bucket resolves: each of its visits and their locations exist. */
  lemma BucketResolves(t: Tables, u: Id)
    requires Consistent(t)
    ensures Resolves(UserBucket(t.usersVisits, u), t.visits, t.locations)
    ensures SortedByTime(UserBucket(t.usersVisits, u), t.visits)
  {
    if u in t.usersVisits {
      assert UserBucketValid(t.usersVisits[u], u, t.visits);
    }
  }

  /** Visit `vid` of user `u` passes the filters of `o` and projects to `x`. */
  predicate HistoryEntry(t: Tables, u: Id, o: GetUserVisitsOptions, vid: Id, x: UserVisit) {
    vid in t.visits && t.visits[vid].user == u && ListedAs(vid, t.visits, t.locations, o, x)
  }

  /** The history of `u` lists exactly the projections of the stored visits
      of `u` that pass the filters, whatever the bucket looks like. */
  lemma HistoryMembers(t: Tables, u: Id, o: GetUserVisitsOptions, x: UserVisit)
    requires Consistent(t)
    ensures Resolves(UserBucket(t.usersVisits, u), t.visits, t.locations)
    ensures x in SelectUserVisits(UserBucket(t.usersVisits, u), t.visits, t.locations, o)
      <==> exists vid :: HistoryEntry(t, u, o, vid, x)
  {
    BucketResolves(t, u);
    var b := UserBucket(t.usersVisits, u);
    SelectUserVisitsMembers(b, t.visits, t.locations, o, x);
    if x in SelectUserVisits(b, t.visits, t.locations, o) {
      var i :| SelectedAt(b, t.visits, t.locations, o, i, x);
      assert UserBucketValid(t.usersVisits[u], u, t.visits);
      assert HistoryEntry(t, u, o, b[i], x);
    }
    if exists vid :: HistoryEntry(t, u, o, vid, x) {
      var vid :| HistoryEntry(t, u, o, vid, x);
      assert vid in b;
      var i :| 0 <= i < |b| && b[i] == vid;
      assert SelectedAt(b, t.visits, t.locations, o, i, x);
      SelectUserVisitsComplete(b, t.visits, t.locations, o, i, x);
    }
  }

  /** The ids in a user's bucket are exactly the stored visits of that
      user, each once. */
  lemma BucketHoldsVisitsOf(t: Tables, u: Id)
    requires Consistent(t)
    ensures NoDup(UserBucket(t.usersVisits, u))
    ensures forall vid :: vid in UserBucket(t.usersVisits, u) <==> vid in t.visits && t.visits[vid].user == u
  {
    if u in t.usersVisits {
      assert UserBucketValid(t.usersVisits[u], u, t.visits);
    }
  }

  /** Each history entry occurs as many times as there are stored visits of
      the user that pass the filters and project to it. */
  lemma HistoryMultiplicity(t: Tables, u: Id, o: GetUserVisitsOptions, x: UserVisit)
    requires Consistent(t)
    ensures Resolves(UserBucket(t.usersVisits, u), t.visits, t.locations)
    ensures multiset(SelectUserVisits(UserBucket(t.usersVisits, u), t.visits, t.locations, o))[x]
         == |set vid | vid in t.visits && HistoryEntry(t, u, o, vid, x)|
  {
    BucketResolves(t, u);
    BucketHoldsVisitsOf(t, u);
    var b := UserBucket(t.usersVisits, u);
    SelectUserVisitsMultiplicity(b, t.visits, t.locations, o, x);
    assert (set vid | vid in b && ListedAs(vid, t.visits, t.locations, o, x))
        == (set vid | vid in t.visits && HistoryEntry(t, u, o, vid, x));
  }

  /** The history has one entry per stored visit of the user that passes
      the filters. */
  lemma HistoryCount(t: Tables, u: Id, o: GetUserVisitsOptions)
    requires Consistent(t)
    ensures Resolves(UserBucket(t.usersVisits, u), t.visits, t.locations)
    ensures |SelectUserVisits(UserBucket(t.usersVisits, u), t.visits, t.locations, o)|
         == |set vid | vid in t.visits && t.visits[vid].user == u && Listed(vid, t.visits, t.locations, o)|
  {
    BucketResolves(t, u);
    BucketHoldsVisitsOf(t, u);
    var b := UserBucket(t.usersVisits, u);
    SelectUserVisitsCount(b, t.visits, t.locations, o);
    assert (set vid | vid in b && Listed(vid, t.visits, t.locations, o))
        == (set vid | vid in t.visits && t.visits[vid].user == u && Listed(vid, t.visits, t.locations, o));
  }

  /** What a consistent store gives the history of `u`: it is in ascending
      `visited_at` order, it lists exactly the projections of the stored
      visits of `u` that pass the filters, each as often as there are such
      visits, one entry per such visit, and it is empty without a bucket. */
  lemma History(t: Tables, u: Id, o: GetUserVisitsOptions)
    requires Consistent(t)
    ensures Resolves(UserBucket(t.usersVisits, u), t.visits, t.locations)
    ensures var h := SelectUserVisits(UserBucket(t.usersVisits, u), t.visits, t.locations, o);
      && InTimeOrder(h)
      && (forall x :: x in h <==> exists vid :: HistoryEntry(t, u, o, vid, x))
      && (forall x :: multiset(h)[x] == |set vid | vid in t.visits && HistoryEntry(t, u, o, vid, x)|)
      && |h| == |set vid | vid in t.visits && t.visits[vid].user == u && Listed(vid, t.visits, t.locations, o)|
      && (u !in t.usersVisits ==> h == [])
  {
    BucketResolves(t, u);
    var b := UserBucket(t.usersVisits, u);
    SelectUserVisitsOrdered(b, t.visits, t.locations, o);
    HistoryCount(t, u, o);
    forall x ensures multiset(SelectUserVisits(b, t.visits, t.locations, o))[x]
                     == |set vid | vid in t.visits && HistoryEntry(t, u, o, vid, x)| {
      HistoryMultiplicity(t, u, o, x);
    }
    forall x ensures x in SelectUserVisits(b, t.visits, t.locations, o)
                     <==> exists vid :: HistoryEntry(t, u, o, vid, x) {
      HistoryMembers(t, u, o, x);
    }
  }

  /** A stored location's rating never exceeds the highest mark: the sum is
      at most `MaxMark` times the count. */
  lemma RatingBound(t: Tables, l: Id, f: RateFilter)
    requires Consistent(t)
    ensures var r := TallyMarks(LocationBucket(t.locationsVisits, l), t.visits, t.users, f);
            r.sum <= MaxMark * r.count
  {
    var b := LocationBucket(t.locationsVisits, l);
    forall i | 0 <= i < |b| && b[i].visit in t.visits ensures t.visits[b[i].visit].mark <= MaxMark {
      assert ValidateVisit(t.visits[b[i].visit]).Pass?;
    }
    TallyBound(b, t.visits, t.users, f);
  }

  /** The store. Its one field holds the five maps, which the methods
      replace as the source's `RefCell` maps are mutated in place. */
  class Store {
    var tables: Tables

    /** Established by the constructor and kept by every mutation. */
    ghost predicate Valid()
      reads this
    {
      Consistent(tables)
    }

    constructor()
      ensures Valid()
      ensures tables == NoTables
    {
      EmptyConsistent();
      tables := NoTables;
    }

    // ----- users -----

    function GetUser(id: Id): (r: Result<User>)
      reads this
      ensures r.Ok? <==> id in tables.users
      ensures r.Ok? ==> r.value == tables.users[id]
      ensures r.Err? ==> r.error == EntityNotExists
    {
      if id in tables.users then Ok(tables.users[id]) else Err(EntityNotExists)
    }

    /** The duplicate check comes before validation. */
    method AddUser(user: User) returns (r: Result<Empty>)
      requires Valid()
      modifies this
      ensures Valid()
      ensures user.id in old(tables.users) ==> r == Err(EntryExists)
      ensures user.id !in old(tables.users) && ValidateUser(user).Fail? ==>
        r == Err(InvalidEntity(ValidateUser(user).error))
      ensures r.Ok? <==> user.id !in old(tables.users) && ValidateUser(user).Pass?
      ensures r.Ok? ==> tables == WithUser(old(tables), user) && GetUser(user.id) == Ok(user)
      ensures r.Err? ==> tables == old(tables)
    {
      if user.id in tables.users {
        return Err(EntryExists);
      }
      var checked := ValidateUser(user);
      if checked.Fail? {
        return Err(InvalidEntity(checked.error));
      }
      WithUserKeeps(tables, user);
      tables := WithUser(tables, user);
      r := Ok(Empty);
    }

    /** Present fields overwrite, the patched user is validated as a whole,
        and nothing is written unless it passes. */
    method UpdateUser(id: Id, data: UserData) returns (r: Result<Empty>)
      requires Valid()
      modifies this
      ensures Valid()
      ensures id !in old(tables.users) ==> r == Err(EntityNotExists)
      ensures id in old(tables.users) ==>
        var u := PatchUser(old(tables.users)[id], data);
        (ValidateUser(u).Fail? ==> r == Err(InvalidEntity(ValidateUser(u).error)))
        && (ValidateUser(u).Pass? ==> r == Ok(Empty) && tables == WithUser(old(tables), u))
      ensures r.Err? ==> tables == old(tables)
    {
      if id !in tables.users {
        return Err(EntityNotExists);
      }
      var updated := PatchUser(tables.users[id], data);
      var checked := ValidateUser(updated);
      if checked.Fail? {
        return Err(InvalidEntity(checked.error));
      }
      WithUserKeeps(tables, updated);
      tables := WithUser(tables, updated);
      r := Ok(Empty);
    }

    // ----- locations -----

    function GetLocation(id: Id): (r: Result<Location>)
      reads this
      ensures r.Ok? <==> id in tables.locations
      ensures r.Ok? ==> r.value == tables.locations[id]
      ensures r.Err? ==> r.error == EntityNotExists
    {
      if id in tables.locations then Ok(tables.locations[id]) else Err(EntityNotExists)
    }

    method AddLocation(location: Location) returns (r: Result<Empty>)
      requires Valid()
      modifies this
      ensures Valid()
      ensures location.id in old(tables.locations) ==> r == Err(EntryExists)
      ensures location.id !in old(tables.locations) && ValidateLocation(location).Fail? ==>
        r == Err(InvalidEntity(ValidateLocation(location).error))
      ensures r.Ok? <==> location.id !in old(tables.locations) && ValidateLocation(location).Pass?
      ensures r.Ok? ==> tables == WithLocation(old(tables), location) && GetLocation(location.id) == Ok(location)
      ensures r.Err? ==> tables == old(tables)
    {
      if location.id in tables.locations {
        return Err(EntryExists);
      }
      var checked := ValidateLocation(location);
      if checked.Fail? {
        return Err(InvalidEntity(checked.error));
      }
      WithLocationKeeps(tables, location);
      tables := WithLocation(tables, location);
      r := Ok(Empty);
    }

    method UpdateLocation(id: Id, data: LocationData) returns (r: Result<Empty>)
      requires Valid()
      modifies this
      ensures Valid()
      ensures id !in old(tables.locations) ==> r == Err(EntityNotExists)
      ensures id in old(tables.locations) ==>
        var l := PatchLocation(old(tables.locations)[id], data);
        (ValidateLocation(l).Fail? ==> r == Err(InvalidEntity(ValidateLocation(l).error)))
        && (ValidateLocation(l).Pass? ==> r == Ok(Empty) && tables == WithLocation(old(tables), l))
      ensures r.Err? ==> tables == old(tables)
    {
      if id !in tables.locations {
        return Err(EntityNotExists);
      }
      var updated := PatchLocation(tables.locations[id], data);
      var checked := ValidateLocation(updated);
      if checked.Fail? {
        return Err(InvalidEntity(checked.error));
      }
      WithLocationKeeps(tables, updated);
      tables := WithLocation(tables, updated);
      r := Ok(Empty);
    }

    // ----- visits -----

    function GetVisit(id: Id): (r: Result<Visit>)
      reads this
      ensures r.Ok? <==> id in tables.visits
      ensures r.Ok? ==> r.value == tables.visits[id]
      ensures r.Err? ==> r.error == EntityNotExists
    {
      if id in tables.visits then Ok(tables.visits[id]) else Err(EntityNotExists)
    }

    /** The user a visit refers to; a missing one is a validation error
        on field "user". */
    function GetVisitUser(userId: Id): (r: Result<User>)
      reads this
      ensures r.Ok? <==> userId in tables.users
      ensures r.Ok? ==> r.value == tables.users[userId]
      ensures r.Err? ==> r.error == MissingReferent("user", userId)
    {
      if userId in tables.users then Ok(tables.users[userId]) else Err(MissingReferent("user", userId))
    }

    /** The location a visit refers to; a missing one is a validation
        error on field "location". */
    function GetVisitLocation(locationId: Id): (r: Result<Location>)
      reads this
      ensures r.Ok? <==> locationId in tables.locations
      ensures r.Ok? ==> r.value == tables.locations[locationId]
      ensures r.Err? ==> r.error == MissingReferent("location", locationId)
    {
      if locationId in tables.locations then Ok(tables.locations[locationId])
      else Err(MissingReferent("location", locationId))
    }

    // ----- the bucket helpers -----

    /** `add_visit_to_user`: scan for the first strictly later entry,
        insert there, or push when there is none. */
    method AddVisitToUser(v: Visit)
      modifies this
      ensures tables == old(tables).(usersVisits := WithUserVisit(old(tables).usersVisits, v, old(tables).visits))
    {
      var bucket := UserBucket(tables.usersVisits, v.user);
      var position := FirstLaterPosition(bucket, tables.visits, v.visitedAt);
      match position {
        case Some(p) =>
          FirstLaterIs(bucket, tables.visits, v.visitedAt, p);
          bucket := InsertAt(bucket, p, v.id);
        case None =>
          FirstLaterIs(bucket, tables.visits, v.visitedAt, |bucket|);
          assert InsertAt(bucket, |bucket|, v.id) == bucket + [v.id];
          bucket := bucket + [v.id];
      }
      tables := tables.(usersVisits := tables.usersVisits[v.user := bucket]);
    }

    /** `remove_visit_from_user`: drop the first entry with the visit's id;
        when there is none the bucket is kept (the source only logs). */
    method RemoveVisitFromUser(v: Visit)
      modifies this
      ensures tables == old(tables).(usersVisits := WithoutUserVisit(old(tables).usersVisits, v))
    {
      var bucket := UserBucket(tables.usersVisits, v.user);
      var position := PositionOf(bucket, v.id);
      if position.Some? {
        FirstIndexOfIs(bucket, v.id, position.value);
        bucket := RemoveAt(bucket, position.value);
      } else {
        FirstIndexOfIs(bucket, v.id, |bucket|);
      }
      tables := tables.(usersVisits := tables.usersVisits[v.user := bucket]);
    }

    /** `add_visit_to_location`: push the visit with `user` attached. */
    method AddVisitToLocation(v: Visit, user: Id)
      modifies this
      ensures tables == old(tables).(locationsVisits := WithLocationVisit(old(tables).locationsVisits, v, user))
    {
      var bucket := LocationBucket(tables.locationsVisits, v.location);
      tables := tables.(locationsVisits := tables.locationsVisits[v.location := bucket + [LocEntry(v.id, user)]]);
    }

    /** `remove_visit_from_location`: drop the first entry for the visit. */
    method RemoveVisitFromLocation(v: Visit)
      modifies this
      ensures tables == old(tables).(locationsVisits := WithoutLocationVisit(old(tables).locationsVisits, v))
    {
      var bucket := LocationBucket(tables.locationsVisits, v.location);
      var position := PositionOf(VisitIds(bucket), v.id);
      if position.Some? {
        FirstIndexOfIs(VisitIds(bucket), v.id, position.value);
        bucket := RemoveAt(bucket, position.value);
      } else {
        FirstIndexOfIs(VisitIds(bucket), v.id, |bucket|);
      }
      tables := tables.(locationsVisits := tables.locationsVisits[v.location := bucket]);
    }

    /** Checks, in order: duplicate id, validity, the user, the location;
        then files the visit under its user (scanning the table without it)
        and under its location, and stores it. */
    method AddVisit(visit: Visit) returns (r: Result<Empty>)
      requires Valid()
      modifies this
      ensures Valid()
      ensures visit.id in old(tables.visits) ==> r == Err(EntryExists)
      ensures visit.id !in old(tables.visits) && ValidateVisit(visit).Fail? ==>
        r == Err(InvalidEntity(ValidateVisit(visit).error))
      ensures visit.id !in old(tables.visits) && ValidateVisit(visit).Pass? && visit.user !in old(tables.users) ==>
        r == Err(MissingReferent("user", visit.user))
      ensures visit.id !in old(tables.visits) && ValidateVisit(visit).Pass? && visit.user in old(tables.users)
              && visit.location !in old(tables.locations) ==>
        r == Err(MissingReferent("location", visit.location))
      ensures r.Ok? <==>
        visit.id !in old(tables.visits) && ValidateVisit(visit).Pass?
        && visit.user in old(tables.users) && visit.location in old(tables.locations)
      ensures r.Ok? ==> tables == WithVisit(old(tables), visit)
      ensures r.Err? ==> tables == old(tables)
    {
      if visit.id in tables.visits {
        return Err(EntryExists);
      }
      var checked := ValidateVisit(visit);
      if checked.Fail? {
        return Err(InvalidEntity(checked.error));
      }
      var user := GetVisitUser(visit.user);
      if user.Err? {
        return Err(user.error);
      }
      var location := GetVisitLocation(visit.location);
      if location.Err? {
        return Err(location.error);
      }
      WithVisitKeeps(tables, visit);
      AddVisitToUser(visit);
      AddVisitToLocation(visit, visit.user);
      tables := tables.(visits := tables.visits[visit.id := visit]);
      r := Ok(Empty);
    }

    /** Patches and validates the visit, checks its location and then its
        user, writes it, then re-files it: under its user when the user,
        `visited_at` or the location changed, under its location (with the
        updated user attached) only when the location changed. */
    method UpdateVisit(id: Id, data: VisitData) returns (r: Result<Empty>)
      requires Valid()
      modifies this
      ensures Valid()
      ensures id !in old(tables.visits) ==> r == Err(EntityNotExists)
      ensures id in old(tables.visits) ==>
        var orig := old(tables.visits)[id];
        var upd := PatchVisit(orig, data);
        (ValidateVisit(upd).Fail? ==> r == Err(InvalidEntity(ValidateVisit(upd).error)))
        && (ValidateVisit(upd).Pass? && upd.location !in old(tables.locations) ==>
              r == Err(MissingReferent("location", upd.location)))
        && (ValidateVisit(upd).Pass? && upd.location in old(tables.locations) && upd.user !in old(tables.users) ==>
              r == Err(MissingReferent("user", upd.user)))
        && (r.Ok? <==> ValidateVisit(upd).Pass? && upd.location in old(tables.locations) && upd.user in old(tables.users))
        && (r.Ok? ==> tables == WithUpdatedVisit(old(tables), orig, upd))
      ensures r.Err? ==> tables == old(tables)
    {
      if id !in tables.visits {
        return Err(EntityNotExists);
      }
      var orig := tables.visits[id];
      var upd := PatchVisit(orig, data);
      var checked := ValidateVisit(upd);
      if checked.Fail? {
        return Err(InvalidEntity(checked.error));
      }
      var location := GetVisitLocation(upd.location);
      if location.Err? {
        return Err(location.error);
      }
      var user := GetVisitUser(upd.user);
      if user.Err? {
        return Err(user.error);
      }
      WithUpdatedVisitKeeps(tables, orig, upd);
      tables := tables.(visits := tables.visits[id := upd]);
      if orig.user != upd.user || orig.visitedAt != upd.visitedAt || orig.location != upd.location {
        RemoveVisitFromUser(orig);
        AddVisitToUser(upd);
      }
      if orig.location != upd.location {
        RemoveVisitFromLocation(orig);
        AddVisitToLocation(upd, upd.user);
      }
      r := Ok(Empty);
    }

    // ----- the queries -----

    /** A user's history: an unknown user is an error, a user with no
        bucket has an empty history, otherwise the bucket is filtered and
        projected in stored order, which is ascending `visited_at`. */
    function GetUserVisits(userId: Id, o: GetUserVisitsOptions): (r: Result<UserVisits>)
      reads this
      requires Valid()
      ensures r.Err? <==> userId !in tables.users
      ensures r.Err? ==> r.error == EntityNotExists
      ensures userId in tables.users && userId !in tables.usersVisits ==> r == Ok(DefaultUserVisits)
      ensures r.Ok? ==> InTimeOrder(r.value.visits)
      ensures r.Ok? ==> forall x :: x in r.value.visits <==> exists vid :: HistoryEntry(tables, userId, o, vid, x)
      ensures r.Ok? ==> forall x :: multiset(r.value.visits)[x]
                                    == |set vid | vid in tables.visits && HistoryEntry(tables, userId, o, vid, x)|
      ensures r.Ok? ==> |r.value.visits|
                        == |set vid | vid in tables.visits && tables.visits[vid].user == userId
                                      && Listed(vid, tables.visits, tables.locations, o)|
      ensures r.Ok? ==> Resolves(UserBucket(tables.usersVisits, userId), tables.visits, tables.locations)
                        && r.value.visits == SelectUserVisits(UserBucket(tables.usersVisits, userId),
                                                              tables.visits, tables.locations, o)
    {
      History(tables, userId, o);
      if userId !in tables.users then Err(EntityNotExists)
      else if userId !in tables.usersVisits then Ok(DefaultUserVisits)
      else Ok(UserVisits(SelectUserVisits(UserBucket(tables.usersVisits, userId), tables.visits, tables.locations, o)))
    }

    /** A location's rating up to the `(sum, count)` step: an unknown
        location is an error, no bucket or no match gives the default, and
        otherwise the filtered marks are summed and counted. `yearsAgo`
        stands for the clock and calendar behind the age cutoffs. */
    function GetLocationAvg(locationId: Id, o: GetLocationAvgOptions, yearsAgo: I32 -> Option<Timestamp>)
      : (r: Result<LocationRate>)
      reads this
      requires Valid()
      ensures r.Err? <==> locationId !in tables.locations
      ensures r.Err? ==> r.error == EntityNotExists
      ensures r.Ok? ==>
        var b := LocationBucket(tables.locationsVisits, locationId);
        var f := MakeRateFilter(o, yearsAgo);
        (r.value == DefaultLocationRate <==> forall i | 0 <= i < |b| :: !EntryMatches(b[i], tables.visits, tables.users, f))
        && (r.value.Average? ==>
              r.value == Average(TallyMarks(b, tables.visits, tables.users, f).sum,
                                 TallyMarks(b, tables.visits, tables.users, f).count))
        && (r.value.Average? ==> r.value.sum <= MaxMark * r.value.count)
    {
      var t := tables;
      var f := MakeRateFilter(o, yearsAgo);
      var b := LocationBucket(t.locationsVisits, locationId);
      RatingBound(t, locationId, f);
      TallyCountZero(b, t.visits, t.users, f);
      if locationId !in t.locations then Err(EntityNotExists)
      else if locationId !in t.locationsVisits then Ok(DefaultLocationRate)
      else Ok(RateOf(TallyMarks(b, t.visits, t.users, f)))
    }
  }
}
