# The entity store of highloadcup_round_1, modelled in Dafny

The server keeps three id-keyed tables in memory (users, locations and
visits) and two hand-maintained indices over the visits:

- the **user bucket** of a user lists that user's visits in ascending
  `visited_at` order; a new visit goes before the first strictly later one,
  so a tie goes after the visits already there;
- the **location bucket** of a location lists its visits in insertion order,
  each paired with the user it had when it was filed.

Inserts check the id for uniqueness, then validate. Updates overlay the
present patch fields onto a copy, validate the whole result and write only
when it passes; a visit update then re-files the visit in whichever bucket
its changed keys demand. Two queries read the buckets: a user's filtered
visit history, and a location's average mark over the visits that pass the
date, gender and age filters.

The model has five modules, one file each:

- `models.dfy` (**Models**): the value types of `src/models.rs`, Rust's fixed
  widths as ranges of `int`, and the three validators. A validator is an
  if/else chain proved equal to "report the first failing check of an
  ordered table". String lengths are UTF-8 byte lengths (`Utf8Len`), as
  Rust's `String::len` is.
- `index.dfy` (**Index**): the two buckets as sequences (`seq<Id>` for a
  user, `seq<LocEntry(visit, user)>` for a location), with these pieces:
  - the four bucket edits as pure functions;
  - the position scans as methods with loops;
  - the index invariants, and lemmas that every edit sequence of the store
    preserves them.
- `queries.dfy` (**Queries**): the history filter and projection, and the
  rating fold as an unbounded `(sum, count)` tally, with their properties.
  It also holds the fold exactly as the source writes it, with a
  wrapping 8-bit sum.
- `store.dfy` (**Store**): the `Store` class.
  - Its one field `tables` holds the five maps. Each mutating method
    replaces it, as the source mutates its `RefCell` maps in place.
  - `Valid()` is the consistency invariant. Every visit is filed exactly
    once under its current user, sorted, and exactly once under its current
    location. Every referenced entity exists, and every stored entity is
    valid.
  - Every mutating method keeps `Valid()`, leaves `tables` untouched on
    failure, and states its new state through the pure `With…` functions.
- `scenarios.dfy` (**Scenarios**): the unit tests of `src/store.rs`, replayed
  as methods. Each one builds a store through the public operations,
  applies the test's update and checks what the test checks. The tests'
  fixtures are parameters that need only what each test relies on, and
  lemmas show the tests' own fixtures qualify. A final scenario shows the
  stale attached user described below.

The source shares entities through `Rc<RefCell<…>>` handles, so an index
entry sees later updates of the entity it points to. The model stores ids
instead and resolves them against the tables at query time, which gives
the same view.

Three behaviours of the code are easy to miss:

- A visit update that changes only the user re-files the visit under the
  new user. The visit's location entry keeps the old user attached,
  because that entry is redone only when the location changes
  (src/store.rs:294-298). The rating's gender and age filters therefore
  still judge that visit by its old user.
  `Scenarios.ReassignedVisitKeepsAttachedUser` and `Scenarios.ReassignFacts`
  show this.
- The age cutoffs come from a clock read on every rating query
  (src/store.rs:356-365), not from a time fixed once. The model takes the
  clock and calendar as a parameter of the query, `yearsAgo`.
- The rating filters judge each visit by the user attached to its location
  entry, not by the user the visit currently names (see the first point).

## Model

| member | source | states |
|---|---|---|
| Models.FirstFailingCheck | src/models.rs:147-169 | the position of the first check that fails: every earlier check holds, and the one at the position fails (or it is past the end) |
| Models.FirstFailingCheckIs | src/models.rs:147-169 | any position meeting those conditions is the first failing one, so the position is unique |
| Models.CharUtf8Len | src/models.rs:147 | one char takes one to four bytes, and exactly one iff it is ASCII |
| Models.Utf8LenBounds | src/models.rs:147-162 | the byte length of a string lies between its char count and four times its char count, and equals the char count iff every char is ASCII |
| Models.ValidateUser | src/models.rs:139-171 | a user is valid iff email ≤ 100 bytes, first and last name ≤ 500 bytes and gender is 'f' or 'm'; otherwise the error is the first failing check in the order email, first_name, last_name, gender |
| Models.ValidateLocation | src/models.rs:173-194 | a location is valid iff country ≤ 50 bytes and city ≤ 50 bytes; the country check comes first and is reported on field "contry" |
| Models.ValidateVisit | src/models.rs:196-211 | a visit is valid iff its mark ≤ 5; otherwise the error is on field "mark" with the mark and the maximum |
| Models.ValidateUserIgnoresIdAndBirthDate | src/models.rs:145-171 | changing a user's id or birth date never changes its validation result |
| Models.ValidateLocationIgnoresPlaceAndDistance | src/models.rs:178-194 | changing a location's place or distance never changes its validation result |
| Models.PatchUser | src/store.rs:61-76 | the patched user keeps its id; each present patch field overwrites, each absent one keeps the old value |
| Models.PatchLocation | src/store.rs:107-119 | the same for a location; the all-absent (default) patch changes nothing |
| Models.PatchVisit | src/store.rs:263-275 | the same for a visit; the all-absent (default) patch changes nothing |
| Models.PatchIdempotent | src/store.rs:58-128 | applying the same patch twice gives what applying it once gives, for all three entities |
| Index.FirstLater | src/store.rs:149-151 | the insertion point of a user bucket: every earlier entry is at or before the time, and the entry there (if any) is strictly later |
| Index.FirstLaterIs | src/store.rs:149-151 | that insertion point is unique |
| Index.FirstIndexOf | src/store.rs:170-172 | the first position holding the id, or the bucket's length when the id is absent |
| Index.FirstIndexOfIs | src/store.rs:170-172 | that position is unique |
| Index.InsertAt | src/store.rs:156 | `Vec::insert`: one longer; the new element is at the position, earlier elements stay put and later ones shift up by one |
| Index.RemoveAt | src/store.rs:174-178 | `Vec::remove` at a found position: one shorter, later elements shift down by one; the past-the-end case stands for the not-found branch, which only logs and leaves the bucket as it is |
| Index.VisitIds | src/store.rs:203-205 | the visit ids of a location bucket, entry by entry |
| Index.FirstLaterPosition | src/store.rs:149-151 | the scan returns the first strictly later entry, or none when every entry is at or before the time |
| Index.PositionOf | src/store.rs:170-172 | the scan returns the first entry with the id, and none iff the id is absent |
| Index.InsertKeepsOrder | src/store.rs:149-158 | inserting a visit at its own time into a sorted user bucket keeps the bucket sorted |
| Index.InsertByTimeTiesAfter | src/store.rs:149-158 | the inserted visit lands after every entry at or before its time and before every later one, so ties go after the existing visits |
| Index.RemoveKeepsOrder | src/store.rs:174-175 | removing any entry keeps a sorted bucket sorted |
| Index.RemoveVisitIdMembers | src/store.rs:161-179 | removal from a duplicate-free bucket drops exactly that id and shortens it by one; an absent id leaves the bucket unchanged |
| Index.UserBucketInsert | src/store.rs:149-158 | filing a new visit keeps its user's bucket valid (right user, no duplicates, sorted) and adds exactly that visit |
| Index.UserIndexAdd | src/store.rs:249 | filing a new visit under its user keeps the whole user index valid for the table that now holds it |
| Index.UserIndexRemove | src/store.rs:291 | removing the original visit from its old user leaves every bucket valid with the visit filed nowhere |
| Index.UserIndexReindex | src/store.rs:287-293 | after the visit is rewritten, removing it from its old user and re-inserting it under the new one, against the updated table, restores the user index |
| Index.UserIndexSameKeys | src/store.rs:287-289 | when the user and the time are unchanged, the user index needs no change |
| Index.UserIndexExactlyOnce | src/store.rs:134-179 | under the user index invariant a stored visit occurs exactly once in its user's bucket and in no other user's bucket |
| Index.LocationIndexAdd | src/store.rs:250 | pushing a new visit, with its user attached, keeps the location index valid |
| Index.LocationIndexRemove | src/store.rs:296 | removing the original visit from its old location leaves every bucket valid with the visit filed nowhere |
| Index.LocationIndexRelocate | src/store.rs:294-298 | removing the visit from its old location and pushing it, with the new user attached, onto the new one restores the location index |
| Index.LocationIndexSameLocation | src/store.rs:294 | when the location is unchanged, the location index stays valid as it is, whatever else changed |
| Index.LocationIndexMoreUsers | src/store.rs:43-56 | adding users never invalidates the location index |
| Index.LocationIndexExactlyOnce | src/store.rs:181-212 | under the location index invariant a stored visit occurs exactly once in its location's bucket and in no other location's bucket |
| Queries.AsUserVisit | src/store.rs:327-333 | a history entry carries the visit's mark and time and the location's place |
| Queries.SelectUserVisits | src/store.rs:316-334 | the history is no longer than the bucket, and each entry is the projection of a bucket entry that passes all four filters; with `SelectUserVisitsAppend` and `SelectUserVisitsSingle` this pins it down as the filtered projection in stored order |
| Queries.SelectUserVisitsComplete | src/store.rs:321-326 | every bucket entry that passes the filters appears in the history |
| Queries.SelectUserVisitsMembers | src/store.rs:316-334 | membership in the history is equivalent to coming from a bucket entry that passes the filters |
| Queries.SelectUserVisitsLowerBound | src/store.rs:321-334 | filtering introduces no times earlier than the bucket's |
| Queries.SelectUserVisitsOrdered | src/store.rs:316-334 | filtering a sorted bucket gives a history in ascending `visited_at` order |
| Queries.SelectUserVisitsUnfiltered | src/store.rs:316-334 | with every filter absent the history is the whole bucket, projected entry by entry |
| Queries.SelectUserVisitsAppend | src/store.rs:316-334 | the history of two buckets back to back is the first one's history followed by the second one's: filtering keeps stored order and lists each entry once |
| Queries.SelectUserVisitsSingle | src/store.rs:321-333 | a one-entry bucket lists its projection iff the entry passes the four filters, otherwise nothing |
| Queries.SelectUserVisitsHead | src/store.rs:316-334 | the history is the first entry's contribution followed by the history of the rest of the bucket |
| Queries.SelectUserVisitsMultiplicity | src/store.rs:316-334 | for a duplicate-free bucket, each entry occurs in the history as many times as the bucket has visits that pass the filters and project to it |
| Queries.SelectUserVisitsCount | src/store.rs:316-334 | for a duplicate-free bucket, the history has one entry per bucket visit that passes the filters |
| Queries.AgeCutoff | src/store.rs:359-364 | an absent age gives no cutoff; a present one gives the clock's answer, which may itself be absent when the year shift fails |
| Queries.MakeRateFilter | src/store.rs:356-365 | the rating filter keeps the options and takes both cutoffs from the clock |
| Queries.TallyCountBound | src/store.rs:367-379 | the fold counts at most as many visits as the bucket holds |
| Queries.TallyCountNone | src/store.rs:372-379 | when no entry matches, the fold yields zero sum and zero count |
| Queries.TallyBound | src/store.rs:379 | when every mark is at most 5, the sum is at most 5 times the count |
| Queries.TallyAppend | src/store.rs:367-379 | the fold over a concatenation is the sum of the folds over the parts |
| Queries.TallyRemoveAt | src/store.rs:367-379 | the fold over a bucket is one entry's step plus the fold over the bucket without that entry |
| Queries.TallyCountSome | src/store.rs:372-379 | one matching entry makes the count positive |
| Queries.TallyCountZero | src/store.rs:381-383 | the count is zero iff no entry of the bucket matches the filters |
| Queries.TallyPermutation | src/store.rs:367-379 | the rating does not depend on bucket order: two buckets with the same entries fold to the same tally |
| Queries.TallyUnfiltered | src/store.rs:367-379 | with no filter the fold counts every entry and sums every mark |
| Queries.UniformTally | src/store.rs:367-379 | when every entry matches with the same mark m, the tally is (m·n, n) |
| Queries.RateOf | src/store.rs:381-390 | zero count gives the default rate; otherwise the rate carries the tally's sum and count |
| Queries.WrappingMarkSumCarries | src/store.rs:379 | the 8-bit accumulator plus 256 times its number of carries equals the start value plus the true sum |
| Queries.WrappingMarkSumIsModulo | src/store.rs:379 | the 8-bit accumulator equals the true sum modulo 256 |
| Queries.MarkSumOverflowExample | src/store.rs:379 | 52 matching visits of mark 5 have true sum 260 while the 8-bit accumulator ends at 4 |
| Store.MissingReferent | src/store.rs:214-230 | a missing referent is a validation error on the named field, saying that id does not exist |
| Store.EmptyConsistent | src/store.rs:29-37 | the empty store satisfies the invariant |
| Store.WithUserKeeps | src/store.rs:43-85 | storing a valid user, new or replacing one, keeps the invariant |
| Store.WithLocationKeeps | src/store.rs:91-128 | storing a valid location, new or replacing one, keeps the invariant |
| Store.WithVisitKeeps | src/store.rs:232-254 | filing a new valid visit whose user and location exist keeps the invariant |
| Store.WithUpdatedVisitKeeps | src/store.rs:281-298 | rewriting a visit and re-filing it as the source does keeps the invariant, in each of the four cases of what changed |
| Store.FiledOnce | src/store.rs:134-212 | in a consistent store each visit occurs exactly once under its current user and its current location, and under no other |
| Store.BucketResolves | src/store.rs:316-320 | each entry of a user bucket names a stored visit whose location exists, and the bucket is sorted |
| Store.HistoryMembers | src/store.rs:311-334 | an entry is in a user's history iff some stored visit of that user passes the filters and projects to it |
| Store.BucketHoldsVisitsOf | src/store.rs:134-179 | a user's bucket is duplicate-free and holds exactly the stored visits of that user |
| Store.HistoryMultiplicity | src/store.rs:311-334 | each history entry occurs as many times as there are stored visits of the user that pass the filters and project to it |
| Store.HistoryCount | src/store.rs:311-334 | the history has one entry per stored visit of the user that passes the filters |
| Store.History | src/store.rs:311-334 | in a consistent store a user's history is in ascending time, has exactly those entries with exactly those multiplicities and that length, and is empty when the user has no bucket |
| Store.RatingBound | src/store.rs:367-379 | a location's tally never exceeds 5 times its count |
| Store.Store.constructor | src/store.rs:29-37 | a new store is empty and consistent |
| Store.Store.GetUser | src/store.rs:39-41 | the stored user, or `EntityNotExists` iff the id is unknown |
| Store.Store.AddUser | src/store.rs:43-56 | a known id gives `EntryExists` before validation; an invalid user gives its validation error; success iff the id is new and the user valid, and only then does the table change |
| Store.Store.UpdateUser | src/store.rs:58-85 | unknown id gives `EntityNotExists`; the patched user is validated as a whole and stored only when it passes; any failure leaves the store unchanged |
| Store.Store.GetLocation | src/store.rs:87-89 | the stored location, or `EntityNotExists` iff the id is unknown |
| Store.Store.AddLocation | src/store.rs:91-102 | as for users: duplicate check first, then validation, table changed only on success |
| Store.Store.UpdateLocation | src/store.rs:104-128 | as for users: unknown id, invalid patched result and success, with nothing written on failure |
| Store.Store.GetVisit | src/store.rs:130-132 | the stored visit, or `EntityNotExists` iff the id is unknown |
| Store.Store.GetVisitUser | src/store.rs:214-221 | the referenced user, or a "user" validation error iff it is missing |
| Store.Store.GetVisitLocation | src/store.rs:223-230 | the referenced location, or a "location" validation error iff it is missing |
| Store.Store.AddVisitToUser | src/store.rs:134-159 | the user index becomes the bucket with the visit inserted before the first strictly later entry; nothing else changes |
| Store.Store.RemoveVisitFromUser | src/store.rs:161-179 | the user index loses the first entry with the visit's id, or keeps the bucket when there is none; nothing else changes |
| Store.Store.AddVisitToLocation | src/store.rs:181-192 | the location index gains the entry, with the user attached, at the end of the bucket; nothing else changes |
| Store.Store.RemoveVisitFromLocation | src/store.rs:194-212 | the location index loses the first entry for the visit, or keeps the bucket; nothing else changes |
| Store.Store.AddVisit | src/store.rs:232-254 | checks in order: duplicate id, mark, user ("user" error), location ("location" error); success iff all pass, and then the visit is stored and filed once under each index, keeping the invariant; any failure changes nothing |
| Store.Store.UpdateVisit | src/store.rs:256-301 | unknown id, invalid mark, missing location (checked before the user) and missing user each give their error and change nothing; success rewrites the visit and re-files it as the source does, keeping the invariant |
| Store.Store.GetUserVisits | src/store.rs:303-339 | unknown user gives `EntityNotExists`; a user without a bucket has an empty history; otherwise the history is the user's bucket filtered and projected in stored order, which is ascending time; each entry occurs exactly as often as the user's stored visits that pass the filters and project to it, and the length is the number of the user's stored visits that pass the filters |
| Store.Store.GetLocationAvg | src/store.rs:341-383 | unknown location gives `EntityNotExists`; the default rate iff no entry matches; otherwise the average of the matching marks as (sum, count), with sum ≤ 5·count |
| Scenarios.OldUserValid | src/store.rs:404-413 | the tests' first user fixture is valid |
| Scenarios.NewUserValid | src/store.rs:415-424 | the tests' second user fixture is valid |
| Scenarios.LocationsValid | src/store.rs:426-444 | both location fixtures are valid |
| Scenarios.AllFieldsFacts | src/store.rs:457-531 | after moving the visit to the other user and location, it is filed only under the new user and the new location |
| Scenarios.MarkFacts | src/store.rs:534-583 | a mark-only change leaves both buckets as they were and stores the new mark |
| Scenarios.VisitedAtFacts | src/store.rs:586-641 | moving the earlier visit past the later one reorders the user's bucket |
| Scenarios.RenamedLocationValid | src/store.rs:700-738 | the test's location patch yields a valid location |
| Scenarios.ComplexFacts | src/store.rs:741-817 | moving the visit to the other location with a new mark empties the old location's bucket and files it under the new one |
| Scenarios.ReassignFacts | src/store.rs:287-298 | a user-only change re-files the visit under the new user, but its location entry keeps the old user attached |

## Left out

- `src/main.rs` (the HTTP router, response and status mapping, listener) and `src/loader.rs` (zip and JSON loading, replayed through the `add_*` operations) are not part of this model: they are I/O plumbing around the store.
- The clock and chrono's `with_year` (src/store.rs:356-365) are not modelled: the query takes them as the parameter `yearsAgo`, whose absent answer drops the filter as `and_then` does.
- Store.Store.GetUserVisits: the order of visits with the same `visited_at` is stated through the user's bucket, not through the tables alone. In the source it is the order in which the visits were filed, later ones after earlier ones (`Index.InsertByTimeTiesAfter`), and the tables do not record that order.
- Store.Store.GetLocationAvg: stops at `(sum, count)`. The `f64` division and the rounding to 5 decimal places (src/store.rs:385-390) are floating point and are not modelled.
- Queries.TallyMarks: the sum is unbounded. The source's 8-bit accumulator is modelled separately, as `Queries.WrappingMarkSum` (see Findings).
- The fold's count is an `i32` in the source; the model's count is unbounded, since it cannot exceed the bucket length (`Queries.TallyCountBound`).
- Logging (`debug!`, `error!`) is left out. A removal that finds no entry is modelled as leaving the bucket as it is; the invariant rules that case out.
- Validation messages are modelled as a `Reason` value (lengths, limits, the offending gender or mark, the missing id) instead of formatted strings.
- `Rc`/`RefCell` handles are modelled as ids resolved against the tables. A `RefCell` borrow panic cannot arise in this sequential code and is not modelled.
- Index.TimeOf and Queries.EntryMatches are total. They answer 0 and "no match" for an entry that names no stored visit or user, a case the invariant rules out.
- Store.Store.AddVisitToUser, RemoveVisitFromUser, AddVisitToLocation and RemoveVisitFromLocation are stated without `Valid()`: they are private steps between which the invariant is temporarily broken. `Store.Store.AddVisit` and `Store.Store.UpdateVisit` state the invariant around the sequence.
- The scenarios take the fixture entities as parameters with only what each test relies on (validity, distinct ids), rather than the literal fixtures; lemmas show the literal fixtures qualify.

## Findings

| source | as written | input that shows it | evidently intended | confidence | as-written member | corrected member |
|---|---|---|---|---|---|---|
| src/store.rs:379 | the fold's sum starts from an untyped `0` and adds `v.mark: u8`, so the accumulator is inferred as `u8` | 52 matching visits of mark 5: the true sum 260 wraps to 4 in a release build (a debug build panics), giving an average of 4/52 | a sum wide enough for any bucket, so the average is the mean of the marks (the model's `Queries.TallyMarks`) | not executed | Queries.MarkSumOverflowExample | Queries.TallyUnfiltered |
