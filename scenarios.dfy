/** The unit tests of src/store.rs, replayed against the model. Each
    scenario builds a store through the public operations and asserts what
    the test asserts; it takes the fixture entities as parameters, needing
    only what the test relies on about them, and the lemmas below show
    that the test's own fixtures qualify. */
module Scenarios {
  import opened Models
  import opened Index
  import opened Queries
  import opened Store

  const OldUser := User(1, "vasia.pupkin@mail.com", "Vasia", "Pupkin", 'm', 315532800)
  const NewUser := User(2, "dasha.petrova@mail.com", "Dasha", "Petrova", 'f', 631152000)
  const OldLocation := Location(1, "Musei", "Russia", "Krasnodar", 10)
  const NewLocation := Location(2, "Biblioteka", "Russia", "Moscow", 0)

  /** The visit the tests file: id 1, mark 3, 2010-01-01T00:00:00. */
  function FixtureVisit(u: User, l: Location): Visit {
    Visit(1, l.id, u.id, 1262304000, 3)
  }

  lemma OldUserValid()
    ensures ValidateUser(OldUser).Pass?
  {
    // at most four bytes a char is already within every limit
    Utf8LenBounds(OldUser.email);
    Utf8LenBounds(OldUser.firstName);
    Utf8LenBounds(OldUser.lastName);
  }

  lemma NewUserValid()
    ensures ValidateUser(NewUser).Pass?
  {
    Utf8LenBounds(NewUser.email);
    Utf8LenBounds(NewUser.firstName);
    Utf8LenBounds(NewUser.lastName);
  }

  lemma LocationsValid()
    ensures ValidateLocation(OldLocation).Pass? && ValidateLocation(NewLocation).Pass?
  {
    Utf8LenBounds(OldLocation.country);
    Utf8LenBounds(OldLocation.city);
    Utf8LenBounds(NewLocation.country);
    Utf8LenBounds(NewLocation.city);
  }

  // ----- reading small buckets -----

  /** A one-visit bucket lists that visit, unfiltered. */
  lemma HistoryOfOne(t: Tables, u: Id, vid: Id, l: Location)
    requires u in t.usersVisits && t.usersVisits[u] == [vid]
    requires vid in t.visits && t.visits[vid].location == l.id && l.id in t.locations && t.locations[l.id] == l
    ensures SelectUserVisits(t.usersVisits[u], t.visits, t.locations, DefaultUserVisitsOptions)
      == [UserVisit(t.visits[vid].mark, t.visits[vid].visitedAt, l.place)]
  {
    assert [vid][1..] == [];
  }

  /** A two-visit bucket lists both, in bucket order, unfiltered. */
  lemma HistoryOfTwo(t: Tables, u: Id, v1: Id, l1: Location, v2: Id, l2: Location)
    requires u in t.usersVisits && t.usersVisits[u] == [v1, v2]
    requires v1 in t.visits && t.visits[v1].location == l1.id && l1.id in t.locations && t.locations[l1.id] == l1
    requires v2 in t.visits && t.visits[v2].location == l2.id && l2.id in t.locations && t.locations[l2.id] == l2
    ensures SelectUserVisits(t.usersVisits[u], t.visits, t.locations, DefaultUserVisitsOptions)
      == [UserVisit(t.visits[v1].mark, t.visits[v1].visitedAt, l1.place),
          UserVisit(t.visits[v2].mark, t.visits[v2].visitedAt, l2.place)]
  {
    assert [v1, v2][1..] == [v2];
    assert [v2][1..] == [];
  }

  /** A one-entry bucket rates at that visit's mark when the entry
      matches the filter, and at nothing otherwise. */
  lemma RatingOfOneBy(t: Tables, l: Id, e: LocEntry, f: RateFilter)
    requires l in t.locationsVisits && t.locationsVisits[l] == [e]
    ensures EntryMatches(e, t.visits, t.users, f) ==>
      TallyMarks(t.locationsVisits[l], t.visits, t.users, f) == MarkTally(t.visits[e.visit].mark, 1)
    ensures !EntryMatches(e, t.visits, t.users, f) ==>
      TallyMarks(t.locationsVisits[l], t.visits, t.users, f) == MarkTally(0, 0)
  {
    TallyCons([e], t.visits, t.users, f);
    assert [e][1..] == [];
  }

  /** A one-entry bucket rates at that visit's mark, unfiltered. */
  lemma RatingOfOne(t: Tables, l: Id, e: LocEntry, yearsAgo: I32 -> Option<Timestamp>)
    requires l in t.locationsVisits && t.locationsVisits[l] == [e]
    requires e.visit in t.visits && e.user in t.users
    ensures TallyMarks(t.locationsVisits[l], t.visits, t.users, MakeRateFilter(DefaultLocationAvgOptions, yearsAgo))
      == MarkTally(t.visits[e.visit].mark, 1)
  {
    var f := MakeRateFilter(DefaultLocationAvgOptions, yearsAgo);
    assert f == NoRateFilter;
    assert EntryMatches(e, t.visits, t.users, f);
    TallyCons([e], t.visits, t.users, f);
    assert [e][1..] == [];
  }

  // ----- the stores the tests build -----

  /** `u` and `l` stored, and the fixture visit of `u` to `l`. */
  function OneVisitTables(u: User, l: Location): Tables {
    WithVisit(WithLocation(WithUser(NoTables, u), l), FixtureVisit(u, l))
  }

  lemma OneVisitFacts(u: User, l: Location)
    ensures var t := OneVisitTables(u, l);
      && t.users.Keys == {u.id} && t.users[u.id] == u
      && t.locations.Keys == {l.id} && t.locations[l.id] == l
      && t.visits.Keys == {1} && t.visits[1] == FixtureVisit(u, l)
      && t.usersVisits.Keys == {u.id} && t.usersVisits[u.id] == [1]
      && t.locationsVisits.Keys == {l.id} && t.locationsVisits[l.id] == [LocEntry(1, u.id)]
  {
  }

  method OneVisitStore(u: User, l: Location) returns (store: Store, visit: Visit)
    requires ValidateUser(u).Pass? && ValidateLocation(l).Pass?
    ensures fresh(store) && store.Valid()
    ensures visit == FixtureVisit(u, l) && store.tables == OneVisitTables(u, l)
  {
    store := new Store();
    var r := store.AddUser(u);
    assert r.Ok?;
    r := store.AddLocation(l);
    assert r.Ok?;
    visit := FixtureVisit(u, l);
    r := store.AddVisit(visit);
    assert r.Ok?;
  }

  /** Two users and two locations. */
  function PeopleTables(u1: User, u2: User, l1: Location, l2: Location): Tables {
    WithLocation(WithLocation(WithUser(WithUser(NoTables, u1), u2), l1), l2)
  }

  method UsersStore(u1: User, u2: User) returns (store: Store)
    requires ValidateUser(u1).Pass? && ValidateUser(u2).Pass? && u1.id != u2.id
    ensures fresh(store) && store.Valid() && store.tables == WithUser(WithUser(NoTables, u1), u2)
  {
    store := new Store();
    var r := store.AddUser(u1);
    assert r.Ok?;
    r := store.AddUser(u2);
    assert r.Ok?;
  }

  method PeopleStore(u1: User, u2: User, l1: Location, l2: Location) returns (store: Store)
    requires ValidateUser(u1).Pass? && ValidateUser(u2).Pass? && u1.id != u2.id
    requires ValidateLocation(l1).Pass? && ValidateLocation(l2).Pass? && l1.id != l2.id
    ensures fresh(store) && store.Valid() && store.tables == PeopleTables(u1, u2, l1, l2)
  {
    store := UsersStore(u1, u2);
    var r := store.AddLocation(l1);
    assert r.Ok?;
    r := store.AddLocation(l2);
    assert r.Ok?;
  }

  /** Two users, two locations, and the fixture visit of `u1` to `l1`. */
  function TwoOfEachTables(u1: User, u2: User, l1: Location, l2: Location): Tables {
    WithVisit(PeopleTables(u1, u2, l1, l2), FixtureVisit(u1, l1))
  }

  method TwoOfEachStore(u1: User, u2: User, l1: Location, l2: Location) returns (store: Store, visit: Visit)
    requires ValidateUser(u1).Pass? && ValidateUser(u2).Pass? && u1.id != u2.id
    requires ValidateLocation(l1).Pass? && ValidateLocation(l2).Pass? && l1.id != l2.id
    ensures fresh(store) && store.Valid()
    ensures visit == FixtureVisit(u1, l1) && store.tables == TwoOfEachTables(u1, u2, l1, l2)
  {
    store := PeopleStore(u1, u2, l1, l2);
    visit := FixtureVisit(u1, l1);
    var r := store.AddVisit(visit);
    assert r.Ok?;
  }

  /** One user and two locations, `l1` stored first. */
  function PlacesTables(u: User, l1: Location, l2: Location): Tables {
    WithLocation(WithLocation(WithUser(NoTables, u), l1), l2)
  }

  method PlacesStore(u: User, l1: Location, l2: Location) returns (store: Store)
    requires ValidateUser(u).Pass? && ValidateLocation(l1).Pass? && ValidateLocation(l2).Pass?
    requires l1.id != l2.id
    ensures fresh(store) && store.Valid() && store.tables == PlacesTables(u, l1, l2)
  {
    store := new Store();
    var r := store.AddUser(u);
    assert r.Ok?;
    r := store.AddLocation(l1);
    assert r.Ok?;
    r := store.AddLocation(l2);
    assert r.Ok?;
  }

  /** One user, two locations, and the fixture visit to `l1`. */
  function TwoLocationsTables(u: User, l1: Location, l2: Location): Tables {
    WithVisit(PlacesTables(u, l1, l2), FixtureVisit(u, l1))
  }

  method TwoLocationsStore(u: User, l1: Location, l2: Location) returns (store: Store, visit: Visit)
    requires ValidateUser(u).Pass? && ValidateLocation(l1).Pass? && ValidateLocation(l2).Pass?
    requires l1.id != l2.id
    ensures fresh(store) && store.Valid()
    ensures visit == FixtureVisit(u, l1) && store.tables == TwoLocationsTables(u, l1, l2)
  {
    store := PlacesStore(u, l1, l2);
    visit := FixtureVisit(u, l1);
    var r := store.AddVisit(visit);
    assert r.Ok?;
  }

  /** The store of `update_visit_with_valid_visited_at`: `lNew` stored
      before `lOld`, then visit 0 at time 1 and visit 1 at time 2, both of
      `u`. */
  function EarlyVisit(u: User, lOld: Location): Visit { Visit(0, lOld.id, u.id, 1, 3) }
  function LateVisit(u: User, lNew: Location): Visit { Visit(1, lNew.id, u.id, 2, 4) }

  function TwoVisitTables(u: User, lOld: Location, lNew: Location): Tables {
    WithVisit(WithVisit(PlacesTables(u, lNew, lOld), EarlyVisit(u, lOld)), LateVisit(u, lNew))
  }

  lemma TwoVisitFacts(u: User, lOld: Location, lNew: Location)
    requires lOld.id != lNew.id
    ensures var t := TwoVisitTables(u, lOld, lNew);
      && t.users.Keys == {u.id} && t.locations == map[lNew.id := lNew, lOld.id := lOld]
      && t.visits == map[0 := EarlyVisit(u, lOld), 1 := LateVisit(u, lNew)]
      && t.usersVisits == map[u.id := [0, 1]]
  {
    var t1 := WithVisit(PlacesTables(u, lNew, lOld), EarlyVisit(u, lOld));
    assert InsertAt([], 0, 0) == [0];
    assert t1.usersVisits == map[u.id := [0]];
    assert FirstLater([0], t1.visits, 2) == 1 by {
      assert [0][1..] == [];
    }
    assert InsertAt([0], 1, 1) == [0, 1];
  }

  method TwoVisitStore(u: User, lOld: Location, lNew: Location) returns (store: Store)
    requires ValidateUser(u).Pass? && ValidateLocation(lOld).Pass? && ValidateLocation(lNew).Pass?
    requires lOld.id != lNew.id
    ensures fresh(store) && store.Valid() && store.tables == TwoVisitTables(u, lOld, lNew)
  {
    store := PlacesStore(u, lNew, lOld);
    var r := store.AddVisit(EarlyVisit(u, lOld));
    assert r.Ok?;
    r := store.AddVisit(LateVisit(u, lNew));
    assert r.Ok?;
  }

  // ----- the tests -----

  /** `update_visit_with_all_valid_fields`: every field changes, so the
      visit moves from the old user and location to the new ones. */
  function MovedVisit(u2: User, l2: Location): Visit {
    Visit(1, l2.id, u2.id, 1293840000, 4)
  }

  lemma AllFieldsFacts(u1: User, u2: User, l1: Location, l2: Location)
    requires u1.id != u2.id && l1.id != l2.id
    ensures var t := TwoOfEachTables(u1, u2, l1, l2);
      && 1 in t.visits && t.visits[1] == FixtureVisit(u1, l1)
      && u2.id in t.users && l2.id in t.locations
    ensures var t := WithUpdatedVisit(TwoOfEachTables(u1, u2, l1, l2), FixtureVisit(u1, l1), MovedVisit(u2, l2));
      && u1.id in t.users && u2.id in t.users && l1.id in t.locations && l2.id in t.locations
      && t.locations[l2.id] == l2 && 1 in t.visits && t.visits[1] == MovedVisit(u2, l2)
      && u1.id in t.usersVisits && t.usersVisits[u1.id] == []
      && u2.id in t.usersVisits && t.usersVisits[u2.id] == [1]
      && l1.id in t.locationsVisits && t.locationsVisits[l1.id] == []
      && l2.id in t.locationsVisits && t.locationsVisits[l2.id] == [LocEntry(1, u2.id)]
  {
    assert InsertAt([], 0, 1) == [1];
    assert [1][1..] == [];
    assert [LocEntry(1, u1.id)][1..] == [];
  }

  method UpdateVisitWithAllValidFields(u1: User, u2: User, l1: Location, l2: Location,
                                       yearsAgo: I32 -> Option<Timestamp>)
    requires ValidateUser(u1).Pass? && ValidateUser(u2).Pass? && u1.id != u2.id
    requires ValidateLocation(l1).Pass? && ValidateLocation(l2).Pass? && l1.id != l2.id
  {
    var store, visit := TwoOfEachStore(u1, u2, l1, l2);
    AllFieldsFacts(u1, u2, l1, l2);
    var data := VisitData(Some(l2.id), Some(u2.id), Some(1293840000), Some(4));
    var upd := MovedVisit(u2, l2);
    assert PatchVisit(visit, data) == upd;
    var r := store.UpdateVisit(visit.id, data);
    assert r.Ok?;
    assert store.GetUserVisits(u1.id, DefaultUserVisitsOptions) == Ok(UserVisits([]));
    assert store.GetVisit(visit.id) == Ok(upd);
    HistoryOfOne(store.tables, u2.id, visit.id, l2);
    assert store.GetUserVisits(u2.id, DefaultUserVisitsOptions)
      == Ok(UserVisits([UserVisit(4, 1293840000, l2.place)]));
    RatingOfOne(store.tables, l2.id, LocEntry(visit.id, u2.id), yearsAgo);
    assert store.GetLocationAvg(l2.id, DefaultLocationAvgOptions, yearsAgo) == Ok(Average(4, 1));
    assert store.GetLocationAvg(l1.id, DefaultLocationAvgOptions, yearsAgo) == Ok(DefaultLocationRate);
  }

  /** `update_visit_with_valid_mark`: only the mark changes, the visit
      stays filed where it was, and both queries see the new mark. */
  lemma MarkFacts(u: User, l: Location)
    ensures var t := WithUpdatedVisit(OneVisitTables(u, l), FixtureVisit(u, l), FixtureVisit(u, l).(mark := 4));
      && u.id in t.users && l.id in t.locations && t.locations[l.id] == l
      && 1 in t.visits && t.visits[1] == FixtureVisit(u, l).(mark := 4)
      && u.id in t.usersVisits && t.usersVisits[u.id] == [1]
      && l.id in t.locationsVisits && t.locationsVisits[l.id] == [LocEntry(1, u.id)]
  {
    OneVisitFacts(u, l);
  }

  method UpdateVisitWithValidMark(u: User, l: Location, yearsAgo: I32 -> Option<Timestamp>)
    requires ValidateUser(u).Pass? && ValidateLocation(l).Pass?
  {
    var store, visit := OneVisitStore(u, l);
    OneVisitFacts(u, l);
    var data := DefaultVisitData.(mark := Some(4));
    assert PatchVisit(visit, data) == visit.(mark := 4);
    var r := store.UpdateVisit(visit.id, data);
    assert r.Ok?;
    MarkFacts(u, l);
    assert store.GetVisit(visit.id) == Ok(visit.(mark := 4));
    HistoryOfOne(store.tables, u.id, visit.id, l);
    assert store.GetUserVisits(u.id, DefaultUserVisitsOptions)
      == Ok(UserVisits([UserVisit(4, visit.visitedAt, l.place)]));
    RatingOfOne(store.tables, l.id, LocEntry(visit.id, u.id), yearsAgo);
    assert store.GetLocationAvg(l.id, DefaultLocationAvgOptions, yearsAgo) == Ok(Average(4, 1));
  }

  /** `update_visit_with_valid_visited_at`: moving the earlier visit past
      the later one reorders the user's history. */
  lemma VisitedAtFacts(u: User, lOld: Location, lNew: Location)
    requires lOld.id != lNew.id
    ensures var t := WithUpdatedVisit(TwoVisitTables(u, lOld, lNew), EarlyVisit(u, lOld),
                                      EarlyVisit(u, lOld).(visitedAt := 3));
      && lOld.id in t.locations && t.locations[lOld.id] == lOld
      && lNew.id in t.locations && t.locations[lNew.id] == lNew
      && 0 in t.visits && t.visits[0] == EarlyVisit(u, lOld).(visitedAt := 3)
      && 1 in t.visits && t.visits[1] == LateVisit(u, lNew)
      && u.id in t.usersVisits && t.usersVisits[u.id] == [1, 0]
  {
    TwoVisitFacts(u, lOld, lNew);
    var m := TwoVisitTables(u, lOld, lNew).visits[0 := EarlyVisit(u, lOld).(visitedAt := 3)];
    assert RemoveVisitId([0, 1], 0) == [1] by {
      assert FirstIndexOf([0, 1], 0) == 0;
    }
    assert FirstLater([1], m, 3) == 1 by {
      assert m[1] == LateVisit(u, lNew);
      assert [1][1..] == [];
    }
    assert InsertAt([1], 1, 0) == [1, 0];
  }

  method UpdateVisitWithValidVisitedAt(u: User, lOld: Location, lNew: Location)
    requires ValidateUser(u).Pass? && ValidateLocation(lOld).Pass? && ValidateLocation(lNew).Pass?
    requires lOld.id != lNew.id
  {
    var store := TwoVisitStore(u, lOld, lNew);
    TwoVisitFacts(u, lOld, lNew);
    var v0 := EarlyVisit(u, lOld);
    var data := DefaultVisitData.(visitedAt := Some(3));
    assert PatchVisit(v0, data) == v0.(visitedAt := 3);
    var r := store.UpdateVisit(v0.id, data);
    assert r.Ok?;
    VisitedAtFacts(u, lOld, lNew);
    assert store.GetVisit(v0.id) == Ok(v0.(visitedAt := 3));
    HistoryOfTwo(store.tables, u.id, 1, lNew, 0, lOld);
    assert store.GetUserVisits(u.id, DefaultUserVisitsOptions)
      == Ok(UserVisits([UserVisit(4, 2, lNew.place), UserVisit(3, 3, lOld.place)]));
  }

  /** `update_visit_with_invalid_location`: a missing location is refused
      and the visit is kept. */
  method UpdateVisitWithInvalidLocation(u: User, l: Location)
    requires ValidateUser(u).Pass? && ValidateLocation(l).Pass? && l.id != 100
  {
    var store, visit := OneVisitStore(u, l);
    OneVisitFacts(u, l);
    assert 100 !in store.tables.locations && store.tables.visits[visit.id] == visit;
    var data := DefaultVisitData.(location := Some(100));
    assert PatchVisit(visit, data) == visit.(location := 100);
    var r := store.UpdateVisit(visit.id, data);
    assert r == Err(MissingReferent("location", 100));
    assert store.GetVisit(visit.id) == Ok(visit);
  }

  /** `update_visit_with_invalid_user`: a missing user is refused and the
      visit is kept. */
  method UpdateVisitWithInvalidUser(u: User, l: Location)
    requires ValidateUser(u).Pass? && ValidateLocation(l).Pass? && u.id != 100
  {
    var store, visit := OneVisitStore(u, l);
    OneVisitFacts(u, l);
    assert 100 !in store.tables.users && store.tables.visits[visit.id] == visit;
    var data := DefaultVisitData.(user := Some(100));
    assert PatchVisit(visit, data) == visit.(user := 100);
    var r := store.UpdateVisit(visit.id, data);
    assert r == Err(MissingReferent("user", 100));
    assert store.GetVisit(visit.id) == Ok(visit);
  }

  /** The patch of `update_location_with_valid_fields`. */
  const RenamedLocation := LocationData(Some("Biblioteka"), Some("Russia"), Some("Moscow"), Some(100))

  lemma RenamedLocationValid(l: Location)
    ensures ValidateLocation(PatchLocation(l, RenamedLocation)).Pass?
  {
    Utf8LenBounds("Russia");
    Utf8LenBounds("Moscow");
  }

  /** `update_location_with_valid_fields`: the history of a visiting user
      shows the new place at once. */
  method UpdateLocationWithValidFields(u: User, l: Location)
    requires ValidateUser(u).Pass? && ValidateLocation(l).Pass?
  {
    var store, visit := OneVisitStore(u, l);
    OneVisitFacts(u, l);
    RenamedLocationValid(l);
    var r := store.UpdateLocation(l.id, RenamedLocation);
    assert r == Ok(Empty);
    var renamed := PatchLocation(l, RenamedLocation);
    HistoryOfOne(store.tables, u.id, visit.id, renamed);
    assert store.GetUserVisits(u.id, DefaultUserVisitsOptions)
      == Ok(UserVisits([UserVisit(visit.mark, visit.visitedAt, "Biblioteka")]));
  }

  /** `complex_update`: the visit moves to another location with a new
      mark, then that location is renamed. */
  lemma ComplexFacts(u: User, lOld: Location, lNew: Location)
    requires lOld.id != lNew.id
    ensures var t := TwoLocationsTables(u, lOld, lNew);
      && 1 in t.visits && t.visits[1] == FixtureVisit(u, lOld)
      && u.id in t.users && lNew.id in t.locations && t.locations[lNew.id] == lNew
    ensures var t := WithUpdatedVisit(TwoLocationsTables(u, lOld, lNew), FixtureVisit(u, lOld),
                                      FixtureVisit(u, lNew).(mark := 2));
      && u.id in t.users && lOld.id in t.locations && lNew.id in t.locations && t.locations[lNew.id] == lNew
      && 1 in t.visits && t.visits[1] == FixtureVisit(u, lNew).(mark := 2)
      && u.id in t.usersVisits && t.usersVisits[u.id] == [1]
      && lOld.id in t.locationsVisits && t.locationsVisits[lOld.id] == []
      && lNew.id in t.locationsVisits && t.locationsVisits[lNew.id] == [LocEntry(1, u.id)]
  {
    assert InsertAt([], 0, 1) == [1];
    assert [1][1..] == [];
    assert [LocEntry(1, u.id)][1..] == [];
  }

  method ComplexUpdate(u: User, lOld: Location, lNew: Location, yearsAgo: I32 -> Option<Timestamp>)
    requires ValidateUser(u).Pass? && ValidateLocation(lOld).Pass? && ValidateLocation(lNew).Pass?
    requires lOld.id != lNew.id
  {
    var store, visit := TwoLocationsStore(u, lOld, lNew);
    ComplexFacts(u, lOld, lNew);
    var data := DefaultVisitData.(location := Some(lNew.id), mark := Some(2));
    var upd := FixtureVisit(u, lNew).(mark := 2);
    assert PatchVisit(visit, data) == upd;
    var r := store.UpdateVisit(visit.id, data);
    assert r.Ok?;
    assert store.GetVisit(visit.id) == Ok(upd);
    assert store.GetLocationAvg(lOld.id, DefaultLocationAvgOptions, yearsAgo) == Ok(DefaultLocationRate);
    RatingOfOne(store.tables, lNew.id, LocEntry(visit.id, u.id), yearsAgo);
    assert store.GetLocationAvg(lNew.id, DefaultLocationAvgOptions, yearsAgo) == Ok(Average(2, 1));
    RenameToTeatr(store, u, lNew, upd);
  }

  /** The second half of `complex_update`: renaming the visited location
      shows in the visitor's history. */
  method RenameToTeatr(store: Store, u: User, l: Location, visit: Visit)
    requires store.Valid()
    requires l.id in store.tables.locations && store.tables.locations[l.id] == l
    requires visit.id in store.tables.visits && store.tables.visits[visit.id] == visit && visit.location == l.id
    requires u.id in store.tables.usersVisits && store.tables.usersVisits[u.id] == [visit.id]
    modifies store
  {
    var rename := DefaultLocationData.(place := Some("Teatr"));
    var renamed := l.(place := "Teatr");
    assert PatchLocation(l, rename) == renamed;
    ValidateLocationIgnoresPlaceAndDistance(l, "Teatr", l.distance);
    var r := store.UpdateLocation(l.id, rename);
    assert r.Ok?;
    assert store.GetLocation(l.id) == Ok(renamed);
    HistoryOfOne(store.tables, u.id, visit.id, renamed);
    assert store.GetUserVisits(u.id, DefaultUserVisitsOptions)
      == Ok(UserVisits([UserVisit(visit.mark, visit.visitedAt, "Teatr")]));
  }

  /** Not one of the tests: moving a visit to another user, and nothing
      else, leaves the old user attached to it in the location's bucket
      (the location bucket is redone only when the location changes), so
      the location's gender filter still sees the old user. */
  lemma ReassignFacts(u1: User, u2: User, l1: Location, l2: Location)
    requires u1.id != u2.id && l1.id != l2.id
    ensures var t := TwoOfEachTables(u1, u2, l1, l2);
      && 1 in t.visits && t.visits[1] == FixtureVisit(u1, l1)
      && u2.id in t.users && l1.id in t.locations
    ensures var t := WithUpdatedVisit(TwoOfEachTables(u1, u2, l1, l2), FixtureVisit(u1, l1),
                                      FixtureVisit(u1, l1).(user := u2.id));
      && u1.id in t.users && t.users[u1.id] == u1 && u2.id in t.users && t.users[u2.id] == u2
      && l1.id in t.locations && 1 in t.visits && t.visits[1] == FixtureVisit(u1, l1).(user := u2.id)
      && u1.id in t.usersVisits && t.usersVisits[u1.id] == []
      && u2.id in t.usersVisits && t.usersVisits[u2.id] == [1]
      && l1.id in t.locationsVisits && t.locationsVisits[l1.id] == [LocEntry(1, u1.id)]
  {
    assert InsertAt([], 0, 1) == [1];
    assert [1][1..] == [];
  }

  method ReassignedVisitKeepsAttachedUser(u1: User, u2: User, l1: Location, l2: Location,
                                          yearsAgo: I32 -> Option<Timestamp>)
    requires ValidateUser(u1).Pass? && ValidateUser(u2).Pass? && u1.id != u2.id && u1.gender != u2.gender
    requires ValidateLocation(l1).Pass? && ValidateLocation(l2).Pass? && l1.id != l2.id
  {
    var store, visit := TwoOfEachStore(u1, u2, l1, l2);
    ReassignFacts(u1, u2, l1, l2);
    var data := DefaultVisitData.(user := Some(u2.id));
    assert PatchVisit(visit, data) == visit.(user := u2.id);
    var r := store.UpdateVisit(visit.id, data);
    assert r.Ok?;
    assert store.GetVisit(visit.id) == Ok(visit.(user := u2.id));
    var byOld := DefaultLocationAvgOptions.(gender := Some(u1.gender));
    var byNew := DefaultLocationAvgOptions.(gender := Some(u2.gender));
    RatingOfOneBy(store.tables, l1.id, LocEntry(visit.id, u1.id), MakeRateFilter(byOld, yearsAgo));
    RatingOfOneBy(store.tables, l1.id, LocEntry(visit.id, u1.id), MakeRateFilter(byNew, yearsAgo));
    assert store.GetLocationAvg(l1.id, byOld, yearsAgo) == Ok(Average(visit.mark, 1));
    assert store.GetLocationAvg(l1.id, byNew, yearsAgo) == Ok(DefaultLocationRate);
  }
}
