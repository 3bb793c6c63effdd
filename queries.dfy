/** The two read queries over the indices (src/store.rs:300-391): a user's
    filtered visit history, and a location's rating folded from the marks
    of the visits that pass the filters. Both are functions of the tables
    and one bucket; the store applies them to its current state. */
module Queries {
  import opened Models
  import opened Index

  // ----- a user's visit history -----

  /** The four optional filters of `get_user_visits`, all strict. */
  predicate UserVisitMatches(v: Visit, l: Location, o: GetUserVisitsOptions) {
    (o.fromDate.Some? ==> o.fromDate.value < v.visitedAt)
    && (o.toDate.Some? ==> v.visitedAt < o.toDate.value)
    && (o.country.Some? ==> l.country == o.country.value)
    && (o.toDistance.Some? ==> l.distance < o.toDistance.value)
  }

  /** The projection of a visit and its location to a history entry. */
  function AsUserVisit(v: Visit, l: Location): (x: UserVisit)
    ensures x.mark == v.mark && x.visitedAt == v.visitedAt && x.place == l.place
  {
    UserVisit(v.mark, v.visitedAt, l.place)
  }

  /** Every id of the bucket names a visit whose location exists: what the
      shared pointers of the source guarantee. */
  predicate Resolves(b: seq<Id>, visits: map<Id, Visit>, locations: map<Id, Location>) {
    forall i | 0 <= i < |b| :: b[i] in visits && visits[b[i]].location in locations
  }

  /** Entry `i` of the bucket passes the filters and projects to `x`. */
  predicate SelectedAt(b: seq<Id>, visits: map<Id, Visit>, locations: map<Id, Location>,
                       o: GetUserVisitsOptions, i: int, x: UserVisit)
    requires Resolves(b, visits, locations)
  {
    0 <= i < |b| &&
    var v := visits[b[i]];
    UserVisitMatches(v, locations[v.location], o) && x == AsUserVisit(v, locations[v.location])
  }

  /** The history: the bucket in stored order, filtered, then projected. */
  function SelectUserVisits(b: seq<Id>, visits: map<Id, Visit>, locations: map<Id, Location>,
                            o: GetUserVisitsOptions): (r: seq<UserVisit>)
    requires Resolves(b, visits, locations)
    ensures |r| <= |b|
    ensures forall x | x in r :: exists i :: SelectedAt(b, visits, locations, o, i, x)
  {
    if b == [] then []
    else
      var v := visits[b[0]];
      var l := locations[v.location];
      var rest := SelectUserVisits(b[1..], visits, locations, o);
      assert forall x | x in rest :: exists i :: SelectedAt(b, visits, locations, o, i, x) by {
        forall x | x in rest ensures exists i :: SelectedAt(b, visits, locations, o, i, x) {
          var i :| SelectedAt(b[1..], visits, locations, o, i, x);
          assert SelectedAt(b, visits, locations, o, i + 1, x);
        }
      }
      assert UserVisitMatches(v, l, o) ==> SelectedAt(b, visits, locations, o, 0, AsUserVisit(v, l));
      (if UserVisitMatches(v, l, o) then [AsUserVisit(v, l)] else []) + rest
  }

  /** Every bucket entry that passes the filters shows up in the history. */
  lemma {:induction false} SelectUserVisitsComplete(b: seq<Id>, visits: map<Id, Visit>,
                                                    locations: map<Id, Location>,
                                                    o: GetUserVisitsOptions, i: int, x: UserVisit)
    requires Resolves(b, visits, locations)
    requires SelectedAt(b, visits, locations, o, i, x)
    ensures x in SelectUserVisits(b, visits, locations, o)
    decreases i
  {
    if i > 0 {
      assert SelectedAt(b[1..], visits, locations, o, i - 1, x);
      SelectUserVisitsComplete(b[1..], visits, locations, o, i - 1, x);
    }
  }

  /** The history lists exactly the projections of the matching entries. */
  lemma SelectUserVisitsMembers(b: seq<Id>, visits: map<Id, Visit>, locations: map<Id, Location>,
                                o: GetUserVisitsOptions, x: UserVisit)
    requires Resolves(b, visits, locations)
    ensures x in SelectUserVisits(b, visits, locations, o) <==> exists i :: SelectedAt(b, visits, locations, o, i, x)
  {
    if exists i :: SelectedAt(b, visits, locations, o, i, x) {
      var i :| SelectedAt(b, visits, locations, o, i, x);
      SelectUserVisitsComplete(b, visits, locations, o, i, x);
    }
  }

  /** Entries of the history are no earlier than the bucket's first entry
      when the bucket is sorted. */
  lemma SelectUserVisitsLowerBound(b: seq<Id>, visits: map<Id, Visit>, locations: map<Id, Location>,
                                   o: GetUserVisitsOptions, t: Timestamp)
    requires Resolves(b, visits, locations)
    requires forall i | 0 <= i < |b| :: t <= TimeOf(visits, b[i])
    ensures forall x | x in SelectUserVisits(b, visits, locations, o) :: t <= x.visitedAt
  {
    forall x | x in SelectUserVisits(b, visits, locations, o) ensures t <= x.visitedAt {
      var i :| SelectedAt(b, visits, locations, o, i, x);
      assert t <= TimeOf(visits, b[i]);
    }
  }

  /** History entries in ascending `visited_at` order. */
  predicate InTimeOrder(r: seq<UserVisit>) {
    forall i, j | 0 <= i < j < |r| :: r[i].visitedAt <= r[j].visitedAt
  }

  /** Filtering keeps the order of a sorted bucket: the history is in
      ascending `visited_at` order. */
  lemma {:induction false} SelectUserVisitsOrdered(b: seq<Id>, visits: map<Id, Visit>,
                                                   locations: map<Id, Location>, o: GetUserVisitsOptions)
    requires Resolves(b, visits, locations)
    requires SortedByTime(b, visits)
    ensures InTimeOrder(SelectUserVisits(b, visits, locations, o))
  {
    if b != [] {
      var v := visits[b[0]];
      var l := locations[v.location];
      var rest := SelectUserVisits(b[1..], visits, locations, o);
      assert SortedByTime(b[1..], visits);
      SelectUserVisitsOrdered(b[1..], visits, locations, o);
      assert forall i | 0 <= i < |b[1..]| :: v.visitedAt <= TimeOf(visits, b[1..][i]) by {
        forall i | 0 <= i < |b[1..]| ensures v.visitedAt <= TimeOf(visits, b[1..][i]) {
          assert TimeOf(visits, b[0]) <= TimeOf(visits, b[i + 1]);
        }
      }
      SelectUserVisitsLowerBound(b[1..], visits, locations, o, v.visitedAt);
      var r := SelectUserVisits(b, visits, locations, o);
      if UserVisitMatches(v, l, o) {
        assert r == [AsUserVisit(v, l)] + rest;
        forall i, j | 0 <= i < j < |r| ensures r[i].visitedAt <= r[j].visitedAt {
          if i == 0 {
            assert r[0].visitedAt == v.visitedAt;
            assert r[j] == rest[j - 1] && rest[j - 1] in rest;
            assert v.visitedAt <= rest[j - 1].visitedAt;
          } else {
            assert r[i] == rest[i - 1] && r[j] == rest[j - 1];
            assert rest[i - 1].visitedAt <= rest[j - 1].visitedAt;
          }
        }
      } else {
        assert r == rest;
      }
    }
  }

  /** With every filter absent the history is the whole bucket, projected
      entry by entry. */
  lemma {:induction false} SelectUserVisitsUnfiltered(b: seq<Id>, visits: map<Id, Visit>,
                                                      locations: map<Id, Location>)
    requires Resolves(b, visits, locations)
    ensures var r := SelectUserVisits(b, visits, locations, DefaultUserVisitsOptions);
      |r| == |b| &&
      forall i | 0 <= i < |b| :: r[i] == AsUserVisit(visits[b[i]], locations[visits[b[i]].location])
  {
    if b != [] {
      SelectUserVisitsUnfiltered(b[1..], visits, locations);
      var r := SelectUserVisits(b, visits, locations, DefaultUserVisitsOptions);
      var rest := SelectUserVisits(b[1..], visits, locations, DefaultUserVisitsOptions);
      assert r == [AsUserVisit(visits[b[0]], locations[visits[b[0]].location])] + rest;
      forall i | 1 <= i < |b| ensures r[i] == AsUserVisit(visits[b[i]], locations[visits[b[i]].location]) {
        assert r[i] == rest[i - 1] && b[1..][i - 1] == b[i];
      }
    }
  }

  /** The history of two buckets one after the other is the history of the
      first followed by that of the second: filtering keeps the stored
      order and lists each entry once. */
  lemma {:induction false} SelectUserVisitsAppend(b1: seq<Id>, b2: seq<Id>, visits: map<Id, Visit>,
                                                  locations: map<Id, Location>, o: GetUserVisitsOptions)
    requires Resolves(b1, visits, locations) && Resolves(b2, visits, locations)
    ensures Resolves(b1 + b2, visits, locations)
    ensures SelectUserVisits(b1 + b2, visits, locations, o)
         == SelectUserVisits(b1, visits, locations, o) + SelectUserVisits(b2, visits, locations, o)
    decreases |b1|
  {
    assert Resolves(b1 + b2, visits, locations) by {
      forall i | 0 <= i < |b1 + b2| ensures (b1 + b2)[i] in visits && visits[(b1 + b2)[i]].location in locations {
        if i < |b1| { assert (b1 + b2)[i] == b1[i]; } else { assert (b1 + b2)[i] == b2[i - |b1|]; }
      }
    }
    if b1 == [] {
      assert b1 + b2 == b2;
    } else {
      assert (b1 + b2)[1..] == b1[1..] + b2;
      assert Resolves(b1[1..], visits, locations) by {
        forall i | 0 <= i < |b1[1..]| ensures b1[1..][i] in visits && visits[b1[1..][i]].location in locations {
          assert b1[1..][i] == b1[i + 1];
        }
      }
      SelectUserVisitsAppend(b1[1..], b2, visits, locations, o);
    }
  }

  /** A one-entry bucket lists the entry's projection when it passes the
      filters, and nothing otherwise. */
  lemma SelectUserVisitsSingle(vid: Id, visits: map<Id, Visit>, locations: map<Id, Location>,
                               o: GetUserVisitsOptions)
    requires vid in visits && visits[vid].location in locations
    ensures var v := visits[vid];
      SelectUserVisits([vid], visits, locations, o)
      == if UserVisitMatches(v, locations[v.location], o) then [AsUserVisit(v, locations[v.location])] else []
  {
    assert [vid][1..] == [];
  }

  /** Visit `vid` exists, passes the filters, and projects to `x`. */
  predicate ListedAs(vid: Id, visits: map<Id, Visit>, locations: map<Id, Location>,
                     o: GetUserVisitsOptions, x: UserVisit) {
    vid in visits && visits[vid].location in locations
    && UserVisitMatches(visits[vid], locations[visits[vid].location], o)
    && x == AsUserVisit(visits[vid], locations[visits[vid].location])
  }

  /** Visit `vid` exists and passes the filters. */
  predicate Listed(vid: Id, visits: map<Id, Visit>, locations: map<Id, Location>, o: GetUserVisitsOptions) {
    vid in visits && visits[vid].location in locations
    && UserVisitMatches(visits[vid], locations[visits[vid].location], o)
  }

  lemma NoDupTail(b: seq<Id>)
    requires NoDup(b) && b != []
    ensures NoDup(b[1..]) && b[0] !in b[1..]
  {
    forall i, j | 0 <= i < j < |b[1..]| ensures b[1..][i] != b[1..][j] {
      assert b[1..][i] == b[i + 1] && b[1..][j] == b[j + 1];
    }
    forall i | 0 <= i < |b[1..]| ensures b[1..][i] != b[0] {
      assert b[1..][i] == b[i + 1];
    }
  }

  lemma ResolvesTail(b: seq<Id>, visits: map<Id, Visit>, locations: map<Id, Location>)
    requires Resolves(b, visits, locations) && b != []
    ensures Resolves(b[1..], visits, locations)
  {
    forall i | 0 <= i < |b[1..]| ensures b[1..][i] in visits && visits[b[1..][i]].location in locations {
      assert b[1..][i] == b[i + 1];
    }
  }

  /** The history of a bucket is its first entry's contribution followed
      by the history of the rest. */
  lemma SelectUserVisitsHead(b: seq<Id>, visits: map<Id, Visit>, locations: map<Id, Location>,
                             o: GetUserVisitsOptions)
    requires Resolves(b, visits, locations) && b != []
    ensures Resolves(b[1..], visits, locations)
    ensures SelectUserVisits(b, visits, locations, o)
         == (if Listed(b[0], visits, locations, o)
             then [AsUserVisit(visits[b[0]], locations[visits[b[0]].location])] else [])
            + SelectUserVisits(b[1..], visits, locations, o)
  {
    ResolvesTail(b, visits, locations);
  }

  /** The visits of a bucket that satisfy `p`, split into the first entry and the rest. */
  lemma HeadSplit(b: seq<Id>, s: set<Id>, s': set<Id>, inS: bool)
    requires b != []
    requires forall vid :: vid in s <==> vid in b && (vid == b[0] ==> inS) && (vid != b[0] ==> vid in s')
    requires forall vid | vid in s' :: vid in b[1..]
    requires b[0] !in b[1..]
    ensures |s| == (if inS then 1 else 0) + |s'|
  {
    assert b == [b[0]] + b[1..];
    if inS {
      assert s == s' + {b[0]};
    } else {
      assert s == s';
    }
  }

  /** In a duplicate-free bucket, an entry appears in the history as many
      times as the bucket has visits that pass the filters and project to
      it. */
  lemma {:induction false} SelectUserVisitsMultiplicity(b: seq<Id>, visits: map<Id, Visit>,
                                                        locations: map<Id, Location>,
                                                        o: GetUserVisitsOptions, x: UserVisit)
    requires Resolves(b, visits, locations) && NoDup(b)
    ensures multiset(SelectUserVisits(b, visits, locations, o))[x]
         == |set vid | vid in b && ListedAs(vid, visits, locations, o, x)|
    decreases |b|
  {
    var s := set vid | vid in b && ListedAs(vid, visits, locations, o, x);
    if b == [] {
      assert s == {};
    } else {
      var tl := b[1..];
      NoDupTail(b);
      SelectUserVisitsHead(b, visits, locations, o);
      SelectUserVisitsMultiplicity(tl, visits, locations, o, x);
      var c := if Listed(b[0], visits, locations, o)
               then [AsUserVisit(visits[b[0]], locations[visits[b[0]].location])] else [];
      assert multiset(c)[x] == if ListedAs(b[0], visits, locations, o, x) then 1 else 0;
      assert multiset(SelectUserVisits(b, visits, locations, o))[x]
          == multiset(c)[x] + multiset(SelectUserVisits(tl, visits, locations, o))[x];
      var s' := set vid | vid in tl && ListedAs(vid, visits, locations, o, x);
      HeadSplit(b, s, s', ListedAs(b[0], visits, locations, o, x));
    }
  }

  /** In a duplicate-free bucket, the history has one entry per visit of
      the bucket that passes the filters. */
  lemma {:induction false} SelectUserVisitsCount(b: seq<Id>, visits: map<Id, Visit>,
                                                 locations: map<Id, Location>, o: GetUserVisitsOptions)
    requires Resolves(b, visits, locations) && NoDup(b)
    ensures |SelectUserVisits(b, visits, locations, o)| == |set vid | vid in b && Listed(vid, visits, locations, o)|
    decreases |b|
  {
    var s := set vid | vid in b && Listed(vid, visits, locations, o);
    if b == [] {
      assert s == {};
    } else {
      var tl := b[1..];
      NoDupTail(b);
      SelectUserVisitsHead(b, visits, locations, o);
      SelectUserVisitsCount(tl, visits, locations, o);
      var s' := set vid | vid in tl && Listed(vid, visits, locations, o);
      HeadSplit(b, s, s', Listed(b[0], visits, locations, o));
    }
  }

  // ----- a location's rating -----

  /** One age cutoff: `now.with_year(now.year() - age)` as a timestamp,
      where `yearsAgo` stands for the clock and the calendar; an absent
      age, or a date the calendar cannot form, gives no cutoff. */
  function AgeCutoff(age: Option<I32>, yearsAgo: I32 -> Option<Timestamp>): (c: Option<Timestamp>)
    ensures age.None? ==> c.None?
    ensures age.Some? ==> c == yearsAgo(age.value)
  {
    match age
    case None => None
    case Some(n) => yearsAgo(n)
  }

  /** The filters of one rating query: the options and the two cutoffs. */
  datatype RateFilter = RateFilter(o: GetLocationAvgOptions, fromCut: Option<Timestamp>, toCut: Option<Timestamp>)

  /** The filter `get_location_avg` builds from its options and the clock. */
  function MakeRateFilter(o: GetLocationAvgOptions, yearsAgo: I32 -> Option<Timestamp>): (f: RateFilter)
    ensures f.o == o
    ensures f.fromCut == AgeCutoff(o.fromAge, yearsAgo) && f.toCut == AgeCutoff(o.toAge, yearsAgo)
  {
    RateFilter(o, AgeCutoff(o.fromAge, yearsAgo), AgeCutoff(o.toAge, yearsAgo))
  }

  /** No filter at all: what the default options give. */
  const NoRateFilter := RateFilter(DefaultLocationAvgOptions, None, None)

  /** The five optional filters of `get_location_avg`, all strict; the age
      filters compare the attached user's birth date with the cutoffs. */
  predicate RateMatches(v: Visit, u: User, f: RateFilter) {
    (f.o.fromDate.Some? ==> v.visitedAt > f.o.fromDate.value)
    && (f.o.toDate.Some? ==> v.visitedAt < f.o.toDate.value)
    && (f.o.gender.Some? ==> u.gender == f.o.gender.value)
    && (f.fromCut.Some? ==> u.birthDate < f.fromCut.value)
    && (f.toCut.Some? ==> u.birthDate > f.toCut.value)
  }

  /** The `(sum, count)` pair of the fold, with an unbounded sum. */
  datatype MarkTally = MarkTally(sum: nat, count: nat) {
    function Plus(other: MarkTally): MarkTally {
      MarkTally(sum + other.sum, count + other.count)
    }
  }

  /** Every entry names a stored visit and an existing attached user:
      what the shared pointers of the source guarantee. */
  predicate Attached(b: seq<LocEntry>, visits: map<Id, Visit>, users: map<Id, User>) {
    forall i | 0 <= i < |b| :: b[i].visit in visits && b[i].user in users
  }

  /** The entry resolves and passes the filters, judged with the user
      attached to it; an entry that does not resolve, which the store's
      invariant rules out, counts as not matching. */
  predicate EntryMatches(e: LocEntry, visits: map<Id, Visit>, users: map<Id, User>, f: RateFilter) {
    e.visit in visits && e.user in users && RateMatches(visits[e.visit], users[e.user], f)
  }

  /** What one entry adds to the fold. */
  function Step(e: LocEntry, visits: map<Id, Visit>, users: map<Id, User>, f: RateFilter): MarkTally {
    if EntryMatches(e, visits, users, f) then MarkTally(visits[e.visit].mark, 1) else MarkTally(0, 0)
  }

  /** The fold over a location's bucket: the marks of the matching
      entries summed, and the matching entries counted. */
  function TallyMarks(b: seq<LocEntry>, visits: map<Id, Visit>, users: map<Id, User>, f: RateFilter): MarkTally {
    if b == [] then MarkTally(0, 0)
    else Step(b[0], visits, users, f).Plus(TallyMarks(b[1..], visits, users, f))
  }

  lemma TallyCons(b: seq<LocEntry>, visits: map<Id, Visit>, users: map<Id, User>, f: RateFilter)
    requires b != []
    ensures TallyMarks(b, visits, users, f) == Step(b[0], visits, users, f).Plus(TallyMarks(b[1..], visits, users, f))
  {
  }

  lemma PlusAssoc(a: MarkTally, b: MarkTally, c: MarkTally)
    ensures a.Plus(b.Plus(c)) == a.Plus(b).Plus(c)
  {
  }

  /** At most every entry is counted. */
  lemma {:induction false} TallyCountBound(b: seq<LocEntry>, visits: map<Id, Visit>, users: map<Id, User>, f: RateFilter)
    ensures TallyMarks(b, visits, users, f).count <= |b|
  {
    if b != [] {
      TallyCountBound(b[1..], visits, users, f);
      TallyCons(b, visits, users, f);
    }
  }

  /** Nothing is counted when no entry matches. */
  lemma {:induction false} TallyCountNone(b: seq<LocEntry>, visits: map<Id, Visit>, users: map<Id, User>, f: RateFilter)
    requires forall i | 0 <= i < |b| :: !EntryMatches(b[i], visits, users, f)
    ensures TallyMarks(b, visits, users, f) == MarkTally(0, 0)
  {
    if b != [] {
      assert !EntryMatches(b[0], visits, users, f);
      assert forall i | 0 <= i < |b[1..]| :: b[1..][i] == b[i + 1];
      TallyCountNone(b[1..], visits, users, f);
      TallyCons(b, visits, users, f);
    }
  }

  /** Stored marks are at most `MaxMark`, so the sum is at most
      `MaxMark` times the count. */
  lemma {:induction false} TallyBound(b: seq<LocEntry>, visits: map<Id, Visit>, users: map<Id, User>, f: RateFilter)
    requires forall i | 0 <= i < |b| :: b[i].visit in visits ==> visits[b[i].visit].mark <= MaxMark
    ensures var t := TallyMarks(b, visits, users, f); t.sum <= MaxMark * t.count
  {
    if b != [] {
      TallyBound(b[1..], visits, users, f);
      TallyCons(b, visits, users, f);
    }
  }

  /** The fold splits over concatenation. */
  lemma {:induction false} TallyAppend(b1: seq<LocEntry>, b2: seq<LocEntry>, visits: map<Id, Visit>,
                                       users: map<Id, User>, f: RateFilter)
    ensures TallyMarks(b1 + b2, visits, users, f)
         == TallyMarks(b1, visits, users, f).Plus(TallyMarks(b2, visits, users, f))
  {
    if b1 == [] {
      assert b1 + b2 == b2;
    } else {
      var c := b1 + b2;
      assert c[0] == b1[0];
      assert c[1..] == b1[1..] + b2;
      TallyAppend(b1[1..], b2, visits, users, f);
      TallyCons(c, visits, users, f);
      TallyCons(b1, visits, users, f);
      PlusAssoc(Step(b1[0], visits, users, f), TallyMarks(b1[1..], visits, users, f), TallyMarks(b2, visits, users, f));
    }
  }

  /** Any one entry's contribution can be taken out of the fold:
      the bucket folds to that entry's step plus the rest. */
  lemma {:induction false} TallyRemoveAt(b: seq<LocEntry>, k: nat, visits: map<Id, Visit>,
                                         users: map<Id, User>, f: RateFilter)
    requires k < |b|
    ensures TallyMarks(b, visits, users, f)
         == Step(b[k], visits, users, f).Plus(TallyMarks(RemoveAt(b, k), visits, users, f))
  {
    TallyCons(b, visits, users, f);
    if k > 0 {
      var r := RemoveAt(b, k);
      assert r[0] == b[0];
      assert r[1..] == RemoveAt(b[1..], k - 1);
      TallyRemoveAt(b[1..], k - 1, visits, users, f);
      TallyCons(r, visits, users, f);
    } else {
      assert RemoveAt(b, k) == b[1..];
    }
  }

  /** Any matching entry is counted, so a zero count means that no entry
      matched. */
  lemma TallyCountSome(b: seq<LocEntry>, k: nat, visits: map<Id, Visit>, users: map<Id, User>, f: RateFilter)
    requires k < |b| && EntryMatches(b[k], visits, users, f)
    ensures TallyMarks(b, visits, users, f).count > 0
  {
    TallyRemoveAt(b, k, visits, users, f);
  }

  /** Nothing is counted exactly when no entry matches. */
  lemma TallyCountZero(b: seq<LocEntry>, visits: map<Id, Visit>, users: map<Id, User>, f: RateFilter)
    ensures TallyMarks(b, visits, users, f).count == 0
        <==> forall i | 0 <= i < |b| :: !EntryMatches(b[i], visits, users, f)
  {
    if forall i | 0 <= i < |b| :: !EntryMatches(b[i], visits, users, f) {
      TallyCountNone(b, visits, users, f);
    } else {
      var k :| 0 <= k < |b| && EntryMatches(b[k], visits, users, f);
      TallyCountSome(b, k, visits, users, f);
    }
  }

  /** Removing an element at a position removes one copy of it from the
      multiset. */
  lemma RemoveAtMultiset(b: seq<LocEntry>, k: nat)
    requires k < |b|
    ensures multiset(RemoveAt(b, k)) == multiset(b) - multiset{b[k]}
  {
    assert b == b[..k] + [b[k]] + b[k + 1..];
    assert RemoveAt(b, k) == b[..k] + b[k + 1..];
  }

  /** The location bucket is unordered: the fold does not depend on the
      order of its entries. */
  lemma {:induction false} TallyPermutation(b1: seq<LocEntry>, b2: seq<LocEntry>, visits: map<Id, Visit>,
                                            users: map<Id, User>, f: RateFilter)
    requires multiset(b1) == multiset(b2)
    ensures TallyMarks(b1, visits, users, f) == TallyMarks(b2, visits, users, f)
    decreases |b1|
  {
    if b1 != [] {
      assert b1[0] in multiset(b2);
      var k :| 0 <= k < |b2| && b2[k] == b1[0];
      RemoveAtMultiset(b1, 0);
      RemoveAtMultiset(b2, k);
      TallyPermutation(RemoveAt(b1, 0), RemoveAt(b2, k), visits, users, f);
      TallyRemoveAt(b1, 0, visits, users, f);
      TallyRemoveAt(b2, k, visits, users, f);
    }
  }

  /** The sum of every mark in the bucket, with no filter. */
  function SumOfMarks(b: seq<LocEntry>, visits: map<Id, Visit>): nat {
    if b == [] then 0
    else (if b[0].visit in visits then visits[b[0].visit].mark else 0) + SumOfMarks(b[1..], visits)
  }

  /** With every filter and cutoff absent the fold counts the whole
      bucket and sums all its marks. */
  lemma {:induction false} TallyUnfiltered(b: seq<LocEntry>, visits: map<Id, Visit>, users: map<Id, User>)
    requires Attached(b, visits, users)
    ensures TallyMarks(b, visits, users, NoRateFilter) == MarkTally(SumOfMarks(b, visits), |b|)
  {
    if b != [] {
      assert Attached(b[1..], visits, users);
      TallyUnfiltered(b[1..], visits, users);
      TallyCons(b, visits, users, NoRateFilter);
    }
  }

  /** A bucket whose entries all match and all carry mark `m` folds to
      `m` times its length. */
  lemma {:induction false} UniformTally(b: seq<LocEntry>, visits: map<Id, Visit>, users: map<Id, User>,
                                        f: RateFilter, m: nat)
    requires forall i | 0 <= i < |b| :: EntryMatches(b[i], visits, users, f) && visits[b[i].visit].mark == m
    ensures TallyMarks(b, visits, users, f) == MarkTally(m * |b|, |b|)
  {
    if b != [] {
      UniformTally(b[1..], visits, users, f, m);
      TallyCons(b, visits, users, f);
    }
  }

  /** The rate from a tally: the default when nothing matched. */
  function RateOf(t: MarkTally): (r: LocationRate)
    ensures r == DefaultLocationRate <==> t.count == 0
    ensures r.Average? ==> r.sum == t.sum && r.count == t.count
  {
    if t.count == 0 then DefaultRate else Average(t.sum, t.count)
  }

  // ----- the accumulator as written -----

  /** `u8` addition in a release build: the carry out of bit 7 is lost. */
  function WrappingAdd(a: U8, b: U8): U8 {
    if a + b < 0x100 then a + b else a + b - 0x100
  }

  /** The fold as the source writes it: the accumulator takes the type of
      `mark`, an 8-bit unsigned integer, so in a release build each
      addition wraps modulo 256 (a debug build panics instead). */
  function WrappingMarkSum(acc: U8, b: seq<LocEntry>, visits: map<Id, Visit>, users: map<Id, User>, f: RateFilter): U8
    decreases |b|
  {
    if b == [] then acc
    else
      var acc' := if EntryMatches(b[0], visits, users, f) then WrappingAdd(acc, visits[b[0].visit].mark) else acc;
      WrappingMarkSum(acc', b[1..], visits, users, f)
  }

  /** How many times the wrapping fold carried out of bit 7. */
  function Carries(acc: U8, b: seq<LocEntry>, visits: map<Id, Visit>, users: map<Id, User>, f: RateFilter): nat
    decreases |b|
  {
    if b == [] then 0
    else if EntryMatches(b[0], visits, users, f) then
      var m := visits[b[0].visit].mark;
      (if acc + m < 0x100 then 0 else 1) + Carries(WrappingAdd(acc, m), b[1..], visits, users, f)
    else Carries(acc, b[1..], visits, users, f)
  }

  /** The wrapping fold falls short of the true sum by 256 per carry. */
  lemma {:induction false} WrappingMarkSumCarries(acc: U8, b: seq<LocEntry>, visits: map<Id, Visit>,
                                                  users: map<Id, User>, f: RateFilter)
    ensures WrappingMarkSum(acc, b, visits, users, f) + 0x100 * Carries(acc, b, visits, users, f)
         == acc + TallyMarks(b, visits, users, f).sum
    decreases |b|
  {
    if b != [] {
      var acc' := if EntryMatches(b[0], visits, users, f) then WrappingAdd(acc, visits[b[0].visit].mark) else acc;
      WrappingMarkSumCarries(acc', b[1..], visits, users, f);
      TallyCons(b, visits, users, f);
    }
  }

  lemma ModOfCarries(x: int, k: nat, y: int)
    requires 0 <= x < 0x100 && x + 0x100 * k == y
    ensures x == y % 0x100
  {
  }

  /** The wrapping accumulator ends at the true sum modulo 256. */
  lemma WrappingMarkSumIsModulo(acc: U8, b: seq<LocEntry>, visits: map<Id, Visit>, users: map<Id, User>, f: RateFilter)
    ensures WrappingMarkSum(acc, b, visits, users, f) == (acc + TallyMarks(b, visits, users, f).sum) % 0x100
  {
    WrappingMarkSumCarries(acc, b, visits, users, f);
    ModOfCarries(WrappingMarkSum(acc, b, visits, users, f), Carries(acc, b, visits, users, f),
                 acc + TallyMarks(b, visits, users, f).sum);
  }

  /** Fifty-two matching visits of mark 5: the true sum is 260, the 8-bit
      accumulator ends at 4, so the rating would read 4/52 instead of 5. */
  lemma MarkSumOverflowExample()
    ensures var visits := map i: Id | 0 <= i < 52 :: Visit(i, 0, 0, 0, 5);
      var users := map[0 := User(0, "", "", "", 'm', 0)];
      var b := seq(52, i requires 0 <= i < 52 => LocEntry(i, 0));
      TallyMarks(b, visits, users, NoRateFilter) == MarkTally(260, 52) &&
      WrappingMarkSum(0, b, visits, users, NoRateFilter) == 4
  {
    var visits := map i: Id | 0 <= i < 52 :: Visit(i, 0, 0, 0, 5);
    var users := map[0 := User(0, "", "", "", 'm', 0)];
    var b := seq(52, i requires 0 <= i < 52 => LocEntry(i, 0));
    assert forall i | 0 <= i < |b| :: EntryMatches(b[i], visits, users, NoRateFilter) && visits[b[i].visit].mark == 5;
    UniformTally(b, visits, users, NoRateFilter, 5);
    WrappingMarkSumIsModulo(0, b, visits, users, NoRateFilter);
  }
}
