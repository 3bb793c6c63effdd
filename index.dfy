/** The two secondary indices of the store (src/store.rs:134-212):
    a user's bucket holds the ids of the user's visits in ascending
    `visited_at` order; a location's bucket holds (visit, user) entries in
    insertion order, the user being the one attached when the entry was
    pushed. This module gives the bucket operations as functions on values,
    the index invariants over the tables, and the lemmas that each mutation
    of the store keeps them. */
module Index {
  import opened Models

  /** An entry of a location's bucket: a visit and the user attached to it. */
  datatype LocEntry = LocEntry(visit: Id, user: Id)

  predicate NoDup<T(==)>(s: seq<T>) {
    forall i, j | 0 <= i < j < |s| :: s[i] != s[j]
  }

  /** The current `visited_at` of a visit; 0 for an id the table lacks,
      which the invariants rule out for every id in a bucket. */
  function TimeOf(visits: map<Id, Visit>, vid: Id): Timestamp {
    if vid in visits then visits[vid].visitedAt else 0
  }

  /** The entries of a bucket in ascending `visited_at` order. */
  predicate SortedByTime(b: seq<Id>, visits: map<Id, Visit>) {
    forall i, j | 0 <= i < j < |b| :: TimeOf(visits, b[i]) <= TimeOf(visits, b[j])
  }

  /** Position of the first entry strictly later than `t`, or |b|. */
  function FirstLater(b: seq<Id>, visits: map<Id, Visit>, t: Timestamp): (p: nat)
    ensures p <= |b|
    ensures forall i | 0 <= i < p :: TimeOf(visits, b[i]) <= t
    ensures p < |b| ==> t < TimeOf(visits, b[p])
  {
    if b == [] || t < TimeOf(visits, b[0]) then 0 else 1 + FirstLater(b[1..], visits, t)
  }

  /** The three properties above determine the position. */
  lemma FirstLaterIs(b: seq<Id>, visits: map<Id, Visit>, t: Timestamp, p: nat)
    requires p <= |b|
    requires forall i | 0 <= i < p :: TimeOf(visits, b[i]) <= t
    requires p < |b| ==> t < TimeOf(visits, b[p])
    ensures FirstLater(b, visits, t) == p
  {
  }

  /** Position of the first occurrence of `x`, or |s|. */
  function FirstIndexOf(s: seq<Id>, x: Id): (p: nat)
    ensures p <= |s|
    ensures p < |s| ==> s[p] == x
    ensures forall i | 0 <= i < p :: s[i] != x
  {
    if s == [] || s[0] == x then 0 else 1 + FirstIndexOf(s[1..], x)
  }

  lemma FirstIndexOfIs(s: seq<Id>, x: Id, p: nat)
    requires p <= |s|
    requires p < |s| ==> s[p] == x
    requires forall i | 0 <= i < p :: s[i] != x
    ensures FirstIndexOf(s, x) == p
  {
  }

  /** `Vec::insert`. */
  function InsertAt<T>(s: seq<T>, p: nat, x: T): (r: seq<T>)
    requires p <= |s|
    ensures |r| == |s| + 1 && r[p] == x
    ensures forall k | 0 <= k < p :: r[k] == s[k]
    ensures forall k | p < k < |r| :: r[k] == s[k - 1]
  {
    s[..p] + [x] + s[p..]
  }

  /** Inserting adds exactly one occurrence of the element. */
  lemma InsertAtMultiset<T>(s: seq<T>, p: nat, x: T)
    requires p <= |s|
    ensures multiset(InsertAt(s, p, x)) == multiset(s) + multiset{x}
  {
    assert s == s[..p] + s[p..];
  }

  /** `Vec::remove`, for a position that `position` found (none when p >= |s|). */
  function RemoveAt<T>(s: seq<T>, p: nat): (r: seq<T>)
    ensures p < |s| ==> |r| == |s| - 1
    ensures p < |s| ==> forall k | 0 <= k < p :: r[k] == s[k]
    ensures p < |s| ==> forall k | p <= k < |r| :: r[k] == s[k + 1]
    ensures p >= |s| ==> r == s
  {
    if p < |s| then s[..p] + s[p + 1..] else s
  }

  function VisitIds(b: seq<LocEntry>): (ids: seq<Id>)
    ensures |ids| == |b|
    ensures forall i | 0 <= i < |b| :: ids[i] == b[i].visit
  {
    seq(|b|, i requires 0 <= i < |b| => b[i].visit)
  }

  // ----- the bucket operations -----

  /** A user's bucket after `add_visit_to_user`: the visit goes before the
      first entry whose `visited_at` is strictly greater, else at the end. */
  function InsertByTime(b: seq<Id>, vid: Id, t: Timestamp, visits: map<Id, Visit>): seq<Id> {
    InsertAt(b, FirstLater(b, visits, t), vid)
  }

  /** A user's bucket after `remove_visit_from_user`: the first entry with
      the visit's id is dropped; without one the bucket is left as it is. */
  function RemoveVisitId(b: seq<Id>, vid: Id): seq<Id> {
    RemoveAt(b, FirstIndexOf(b, vid))
  }

  /** A location's bucket after `remove_visit_from_location`. */
  function RemoveLocEntry(b: seq<LocEntry>, vid: Id): seq<LocEntry> {
    RemoveAt(b, FirstIndexOf(VisitIds(b), vid))
  }

  /** `entry(key).or_insert(Vec::new())`, read only. */
  function UserBucket(uv: map<Id, seq<Id>>, u: Id): seq<Id> {
    if u in uv then uv[u] else []
  }

  function LocationBucket(lv: map<Id, seq<LocEntry>>, l: Id): seq<LocEntry> {
    if l in lv then lv[l] else []
  }

  /** The user index after `add_visit_to_user(v)` (store.rs:134-159). */
  function WithUserVisit(uv: map<Id, seq<Id>>, v: Visit, visits: map<Id, Visit>): map<Id, seq<Id>> {
    uv[v.user := InsertByTime(UserBucket(uv, v.user), v.id, v.visitedAt, visits)]
  }

  /** The user index after `remove_visit_from_user(v)` (store.rs:161-179). */
  function WithoutUserVisit(uv: map<Id, seq<Id>>, v: Visit): map<Id, seq<Id>> {
    uv[v.user := RemoveVisitId(UserBucket(uv, v.user), v.id)]
  }

  /** The location index after `add_visit_to_location(v, user)` (store.rs:181-192). */
  function WithLocationVisit(lv: map<Id, seq<LocEntry>>, v: Visit, user: Id): map<Id, seq<LocEntry>> {
    lv[v.location := LocationBucket(lv, v.location) + [LocEntry(v.id, user)]]
  }

  /** The location index after `remove_visit_from_location(v)` (store.rs:194-212). */
  function WithoutLocationVisit(lv: map<Id, seq<LocEntry>>, v: Visit): map<Id, seq<LocEntry>> {
    lv[v.location := RemoveLocEntry(LocationBucket(lv, v.location), v.id)]
  }

  // ----- the position scans of the helpers -----

  /** `iter().position(|v| t < v.visited_at)` over a user's bucket. */
  method FirstLaterPosition(b: seq<Id>, visits: map<Id, Visit>, t: Timestamp) returns (position: Option<nat>)
    ensures position.Some? ==> position.value < |b| && t < TimeOf(visits, b[position.value])
    ensures position.Some? ==> forall i | 0 <= i < position.value :: TimeOf(visits, b[i]) <= t
    ensures position.None? ==> forall i | 0 <= i < |b| :: TimeOf(visits, b[i]) <= t
  {
    var i := 0;
    while i < |b|
      invariant 0 <= i <= |b|
      invariant forall k | 0 <= k < i :: TimeOf(visits, b[k]) <= t
    {
      if t < TimeOf(visits, b[i]) {
        return Some(i);
      }
      i := i + 1;
    }
    return None;
  }

  /** `iter().position(|v| v.id == vid)` over a bucket's visit ids. */
  method PositionOf(ids: seq<Id>, vid: Id) returns (position: Option<nat>)
    ensures position.Some? ==> position.value < |ids| && ids[position.value] == vid
    ensures position.Some? ==> forall i | 0 <= i < position.value :: ids[i] != vid
    ensures position.None? <==> vid !in ids
  {
    var i := 0;
    while i < |ids|
      invariant 0 <= i <= |ids|
      invariant forall k | 0 <= k < i :: ids[k] != vid
    {
      if ids[i] == vid {
        return Some(i);
      }
      i := i + 1;
    }
    return None;
  }

  // ----- sequence facts -----

  /** Inserting at the first strictly later position keeps a bucket sorted. */
  lemma InsertKeepsOrder(b: seq<Id>, visits: map<Id, Visit>, vid: Id)
    requires SortedByTime(b, visits)
    ensures SortedByTime(InsertByTime(b, vid, TimeOf(visits, vid), visits), visits)
  {
    var t := TimeOf(visits, vid);
    var p := FirstLater(b, visits, t);
    var r := InsertAt(b, p, vid);
    forall i, j | 0 <= i < j < |r| ensures TimeOf(visits, r[i]) <= TimeOf(visits, r[j]) {
      if j < p {
      } else if j == p {
      } else if i < p {
        assert TimeOf(visits, r[i]) <= t < TimeOf(visits, b[p]) <= TimeOf(visits, b[j - 1]);
      } else if i == p {
        assert t < TimeOf(visits, b[p]) <= TimeOf(visits, b[j - 1]);
      } else {
      }
    }
  }

  /** In a sorted bucket the insertion point splits it into the entries no
      later than `t` (which stay before the new one, ties included) and the
      entries strictly later (which follow it). */
  lemma InsertByTimeTiesAfter(b: seq<Id>, vid: Id, t: Timestamp, visits: map<Id, Visit>)
    requires SortedByTime(b, visits)
    ensures var p := FirstLater(b, visits, t);
      InsertByTime(b, vid, t, visits)[p] == vid &&
      forall i | 0 <= i < |b| :: i < p <==> TimeOf(visits, b[i]) <= t
  {
    var p := FirstLater(b, visits, t);
    forall i | p <= i < |b| ensures t < TimeOf(visits, b[i]) {
      assert TimeOf(visits, b[p]) <= TimeOf(visits, b[i]);
    }
  }

  lemma RemoveKeepsOrder(b: seq<Id>, visits: map<Id, Visit>, p: nat)
    requires SortedByTime(b, visits)
    ensures SortedByTime(RemoveAt(b, p), visits)
  {
    var r := RemoveAt(b, p);
    if p < |b| {
      forall i, j | 0 <= i < j < |r| ensures TimeOf(visits, r[i]) <= TimeOf(visits, r[j]) {
        var i' := if i < p then i else i + 1;
        var j' := if j < p then j else j + 1;
        assert r[i] == b[i'] && r[j] == b[j'] && i' < j';
      }
    }
  }

  /** Removing the first occurrence of `x` from a duplicate-free sequence
      drops exactly `x` and keeps it duplicate-free. */
  lemma RemoveVisitIdMembers(b: seq<Id>, x: Id)
    requires NoDup(b)
    ensures NoDup(RemoveVisitId(b, x))
    ensures forall y :: y in RemoveVisitId(b, x) <==> y in b && y != x
    ensures x in b ==> |RemoveVisitId(b, x)| == |b| - 1
    ensures x !in b ==> RemoveVisitId(b, x) == b
  {
    var p := FirstIndexOf(b, x);
    var r := RemoveVisitId(b, x);
    if p < |b| {
      forall y ensures y in r <==> y in b && y != x {
        if y in r {
          var k :| 0 <= k < |r| && r[k] == y;
          var k' := if k < p then k else k + 1;
          assert b[k'] == y && k' != p;
        }
        if y in b && y != x {
          var k :| 0 <= k < |b| && b[k] == y;
          assert k != p;
          assert r[if k < p then k else k - 1] == y;
        }
      }
      forall i, j | 0 <= i < j < |r| ensures r[i] != r[j] {
        var i' := if i < p then i else i + 1;
        var j' := if j < p then j else j + 1;
        assert r[i] == b[i'] && r[j] == b[j'] && i' < j';
      }
    }
  }

  lemma VisitIdsRemoveAt(b: seq<LocEntry>, p: nat)
    ensures VisitIds(RemoveAt(b, p)) == RemoveAt(VisitIds(b), p)
  {
  }

  lemma VisitIdsAppend(b: seq<LocEntry>, e: LocEntry)
    ensures VisitIds(b + [e]) == VisitIds(b) + [e.visit]
  {
  }

  /** In a duplicate-free sequence an element occurs exactly once. */
  lemma {:induction false} NoDupOccursOnce(s: seq<Id>, x: Id)
    requires NoDup(s) && x in s
    ensures multiset(s)[x] == 1
  {
    assert s == [s[0]] + s[1..];
    if s[0] == x {
      assert x !in s[1..];
    } else {
      NoDupOccursOnce(s[1..], x);
    }
  }

  // ----- the user index -----

  /** The bucket of user `u`: visits of `u`, each once, ascending `visited_at`. */
  predicate UserBucketValid(b: seq<Id>, u: Id, visits: map<Id, Visit>) {
    (forall i | 0 <= i < |b| :: b[i] in visits && visits[b[i]].user == u)
    && NoDup(b)
    && SortedByTime(b, visits)
  }

  /** A bucket stays valid under a table whose entries for its visits keep
      their user and time. */
  lemma UserBucketFrame(b: seq<Id>, u: Id, visits: map<Id, Visit>, m: map<Id, Visit>)
    requires UserBucketValid(b, u, visits)
    requires forall i | 0 <= i < |b| :: b[i] in m && m[b[i]].user == u && m[b[i]].visitedAt == visits[b[i]].visitedAt
    ensures UserBucketValid(b, u, m)
  {
    assert forall i | 0 <= i < |b| :: TimeOf(m, b[i]) == TimeOf(visits, b[i]);
  }

  /** Every bucket is valid and every visit sits in the bucket of its user. */
  predicate UserIndexValid(visits: map<Id, Visit>, uv: map<Id, seq<Id>>) {
    (forall u | u in uv :: UserBucketValid(uv[u], u, visits))
    && (forall vid | vid in visits :: vid in UserBucket(uv, visits[vid].user))
  }

  /** The same with visit `x` in no bucket, between a removal and a re-insertion. */
  predicate UserIndexValidExcept(visits: map<Id, Visit>, uv: map<Id, seq<Id>>, x: Id) {
    (forall u | u in uv :: UserBucketValid(uv[u], u, visits) && x !in uv[u])
    && (forall vid | vid in visits && vid != x :: vid in UserBucket(uv, visits[vid].user))
  }

  /** Inserting an element a duplicate-free sequence lacks keeps it
      duplicate-free and adds exactly that element. */
  lemma InsertAtMembers(b: seq<Id>, p: nat, x: Id)
    requires NoDup(b) && x !in b && p <= |b|
    ensures NoDup(InsertAt(b, p, x))
    ensures forall y :: y in InsertAt(b, p, x) <==> y == x || y in b
  {
    var r := InsertAt(b, p, x);
    InsertAtMultiset(b, p, x);
    forall y ensures y in r <==> y == x || y in b {
      assert y in multiset(r) <==> y in multiset(b) + multiset{x};
    }
    forall i, j | 0 <= i < j < |r| ensures r[i] != r[j] {
      if i != p && j != p {
        var i' := if i < p then i else i - 1;
        var j' := if j < p then j else j - 1;
        assert r[i] == b[i'] && r[j] == b[j'] && i' < j';
      }
    }
  }

  /** Inserting a visit of `u` that the bucket lacks keeps the bucket
      valid and adds exactly that visit. */
  lemma UserBucketInsert(b: seq<Id>, m: map<Id, Visit>, v: Visit)
    requires UserBucketValid(b, v.user, m) && v.id !in b
    requires v.id in m && m[v.id] == v
    ensures var r := InsertByTime(b, v.id, v.visitedAt, m);
      UserBucketValid(r, v.user, m) && forall y :: y in r <==> y == v.id || y in b
  {
    var p := FirstLater(b, m, v.visitedAt);
    var r := InsertAt(b, p, v.id);
    InsertKeepsOrder(b, m, v.id);
    InsertAtMembers(b, p, v.id);
    forall i | 0 <= i < |r| ensures r[i] in m && m[r[i]].user == v.user {
      assert r[i] in r;
    }
  }

  lemma UserIndexInsertBuckets(m: map<Id, Visit>, uv: map<Id, seq<Id>>, v: Visit)
    requires UserIndexValidExcept(m, uv, v.id)
    requires v.id in m && m[v.id] == v
    ensures var uv' := WithUserVisit(uv, v, m);
      forall u | u in uv' :: UserBucketValid(uv'[u], u, m)
  {
    var b := UserBucket(uv, v.user);
    UserBucketInsert(b, m, v);
  }

  lemma UserIndexInsertFiled(m: map<Id, Visit>, uv: map<Id, seq<Id>>, v: Visit)
    requires UserIndexValidExcept(m, uv, v.id)
    requires v.id in m && m[v.id] == v
    ensures var uv' := WithUserVisit(uv, v, m);
      forall vid | vid in m :: vid in UserBucket(uv', m[vid].user)
  {
    var uv' := WithUserVisit(uv, v, m);
    var b := UserBucket(uv, v.user);
    UserBucketInsert(b, m, v);
    forall vid | vid in m ensures vid in UserBucket(uv', m[vid].user) {
      if vid != v.id {
        assert vid in UserBucket(uv, m[vid].user);
      }
    }
  }

  /** Inserting the missing visit restores the user index. */
  lemma UserIndexInsert(m: map<Id, Visit>, uv: map<Id, seq<Id>>, v: Visit)
    requires UserIndexValidExcept(m, uv, v.id)
    requires v.id in m && m[v.id] == v
    ensures UserIndexValid(m, WithUserVisit(uv, v, m))
  {
    UserIndexInsertBuckets(m, uv, v);
    UserIndexInsertFiled(m, uv, v);
  }

  lemma UserIndexNewBuckets(visits: map<Id, Visit>, uv: map<Id, seq<Id>>, v: Visit)
    requires UserIndexValid(visits, uv)
    requires v.id !in visits
    ensures forall u | u in uv :: UserBucketValid(uv[u], u, visits[v.id := v]) && v.id !in uv[u]
  {
    var m := visits[v.id := v];
    forall u | u in uv ensures UserBucketValid(uv[u], u, m) && v.id !in uv[u] {
      var b := uv[u];
      assert UserBucketValid(b, u, visits);
      UserBucketFrame(b, u, visits, m);
    }
  }

  lemma UserIndexNewFiled(visits: map<Id, Visit>, uv: map<Id, seq<Id>>, v: Visit)
    requires UserIndexValid(visits, uv)
    requires v.id !in visits
    ensures var m := visits[v.id := v];
      forall vid | vid in m && vid != v.id :: vid in UserBucket(uv, m[vid].user)
  {
  }

  /** The insertion point depends only on the times of the bucket's entries. */
  lemma InsertByTimeFrame(b: seq<Id>, vid: Id, t: Timestamp, visits: map<Id, Visit>, m: map<Id, Visit>)
    requires forall i | 0 <= i < |b| :: TimeOf(m, b[i]) == TimeOf(visits, b[i])
    ensures InsertByTime(b, vid, t, visits) == InsertByTime(b, vid, t, m)
  {
    FirstLaterIs(b, m, t, FirstLater(b, visits, t));
  }

  lemma InsertByTimeFresh(b: seq<Id>, v: Visit, visits: map<Id, Visit>)
    requires forall i | 0 <= i < |b| :: b[i] in visits
    requires v.id !in visits
    ensures InsertByTime(b, v.id, v.visitedAt, visits) == InsertByTime(b, v.id, v.visitedAt, visits[v.id := v])
  {
    InsertByTimeFrame(b, v.id, v.visitedAt, visits, visits[v.id := v]);
  }

  /** Adding to the table a visit it lacks: no bucket holds it yet. */
  lemma UserIndexExceptNew(visits: map<Id, Visit>, uv: map<Id, seq<Id>>, v: Visit)
    requires UserIndexValid(visits, uv)
    requires v.id !in visits
    ensures UserIndexValidExcept(visits[v.id := v], uv, v.id)
  {
    UserIndexNewBuckets(visits, uv, v);
    UserIndexNewFiled(visits, uv, v);
  }

  /** The insertion point in the user's bucket does not depend on the new
      visit's own table entry. */
  lemma UserIndexNewPoint(visits: map<Id, Visit>, uv: map<Id, seq<Id>>, v: Visit)
    requires UserIndexValid(visits, uv)
    requires v.id !in visits
    ensures WithUserVisit(uv, v, visits) == WithUserVisit(uv, v, visits[v.id := v])
  {
    var b := UserBucket(uv, v.user);
    if v.user in uv {
      assert UserBucketValid(b, v.user, visits);
    }
    InsertByTimeFresh(b, v, visits);
  }

  /** `add_visit` keeps the user index: the new visit lands in its user's
      bucket, which stays sorted. */
  lemma UserIndexAdd(visits: map<Id, Visit>, uv: map<Id, seq<Id>>, v: Visit)
    requires UserIndexValid(visits, uv)
    requires v.id !in visits
    ensures UserIndexValid(visits[v.id := v], WithUserVisit(uv, v, visits))
  {
    UserIndexExceptNew(visits, uv, v);
    UserIndexNewPoint(visits, uv, v);
    UserIndexInsert(visits[v.id := v], uv, v);
  }

  /** Replacing a visit by `upd` and removing the original from its user's
      bucket leaves only that visit unindexed. */
  lemma UserIndexRemove(visits: map<Id, Visit>, uv: map<Id, seq<Id>>, orig: Visit, upd: Visit)
    requires UserIndexValid(visits, uv)
    requires orig.id in visits && visits[orig.id] == orig && upd.id == orig.id
    ensures UserIndexValidExcept(visits[orig.id := upd], WithoutUserVisit(uv, orig), orig.id)
  {
    var m := visits[orig.id := upd];
    var uv1 := WithoutUserVisit(uv, orig);
    var b := UserBucket(uv, orig.user);
    var r := RemoveVisitId(b, orig.id);
    assert UserBucketValid(b, orig.user, visits);
    RemoveVisitIdMembers(b, orig.id);
    var q := FirstIndexOf(b, orig.id);
    RemoveKeepsOrder(b, visits, q);
    assert UserBucketValid(r, orig.user, visits);
    UserBucketFrame(r, orig.user, visits, m);
    forall u | u in uv1 ensures UserBucketValid(uv1[u], u, m) && orig.id !in uv1[u] {
      if u != orig.user {
        var b' := uv[u];
        assert UserBucketValid(b', u, visits);
        assert orig.id !in b';
        UserBucketFrame(b', u, visits, m);
      }
    }
  }

  /** `update_visit`'s re-indexing on the user side (store.rs:287-293):
      after removal from the original user's bucket and insertion into the
      updated user's, the user index holds for the updated table. */
  lemma UserIndexReindex(visits: map<Id, Visit>, uv: map<Id, seq<Id>>, orig: Visit, upd: Visit)
    requires UserIndexValid(visits, uv)
    requires orig.id in visits && visits[orig.id] == orig && upd.id == orig.id
    ensures var m := visits[orig.id := upd];
      UserIndexValid(m, WithUserVisit(WithoutUserVisit(uv, orig), upd, m))
  {
    UserIndexRemove(visits, uv, orig, upd);
    UserIndexInsert(visits[orig.id := upd], WithoutUserVisit(uv, orig), upd);
  }

  lemma UserIndexSameKeysBuckets(visits: map<Id, Visit>, uv: map<Id, seq<Id>>, orig: Visit, upd: Visit)
    requires UserIndexValid(visits, uv)
    requires orig.id in visits && visits[orig.id] == orig && upd.id == orig.id
    requires upd.user == orig.user && upd.visitedAt == orig.visitedAt
    ensures forall u | u in uv :: UserBucketValid(uv[u], u, visits[orig.id := upd])
  {
    var m := visits[orig.id := upd];
    forall u | u in uv ensures UserBucketValid(uv[u], u, m) {
      var b := uv[u];
      assert UserBucketValid(b, u, visits);
      UserBucketFrame(b, u, visits, m);
    }
  }

  /** A patch that keeps the user and `visited_at` needs no re-indexing. */
  lemma UserIndexSameKeys(visits: map<Id, Visit>, uv: map<Id, seq<Id>>, orig: Visit, upd: Visit)
    requires UserIndexValid(visits, uv)
    requires orig.id in visits && visits[orig.id] == orig && upd.id == orig.id
    requires upd.user == orig.user && upd.visitedAt == orig.visitedAt
    ensures UserIndexValid(visits[orig.id := upd], uv)
  {
    UserIndexSameKeysBuckets(visits, uv, orig, upd);
  }

  /** Each visit is in the bucket of its current user exactly once, and in
      no other user's bucket. */
  lemma UserIndexExactlyOnce(visits: map<Id, Visit>, uv: map<Id, seq<Id>>, vid: Id)
    requires UserIndexValid(visits, uv) && vid in visits
    ensures multiset(UserBucket(uv, visits[vid].user))[vid] == 1
    ensures forall u | u != visits[vid].user :: vid !in UserBucket(uv, u)
  {
    var u0 := visits[vid].user;
    assert UserBucketValid(uv[u0], u0, visits);
    NoDupOccursOnce(uv[u0], vid);
    forall u | u != u0 ensures vid !in UserBucket(uv, u) {
      if u in uv && vid in uv[u] {
        assert UserBucketValid(uv[u], u, visits);
      }
    }
  }

  // ----- the location index -----

  /** The bucket of location `l`: visits at `l`, each once, each with an
      attached user that exists. */
  predicate LocationBucketValid(b: seq<LocEntry>, l: Id, visits: map<Id, Visit>, users: set<Id>) {
    (forall i | 0 <= i < |b| :: b[i].visit in visits && visits[b[i].visit].location == l && b[i].user in users)
    && NoDup(VisitIds(b))
  }

  predicate LocationIndexValid(visits: map<Id, Visit>, users: set<Id>, lv: map<Id, seq<LocEntry>>) {
    (forall l | l in lv :: LocationBucketValid(lv[l], l, visits, users))
    && (forall vid | vid in visits :: vid in VisitIds(LocationBucket(lv, visits[vid].location)))
  }

  predicate LocationIndexValidExcept(visits: map<Id, Visit>, users: set<Id>, lv: map<Id, seq<LocEntry>>, x: Id) {
    (forall l | l in lv :: LocationBucketValid(lv[l], l, visits, users) && x !in VisitIds(lv[l]))
    && (forall vid | vid in visits && vid != x :: vid in VisitIds(LocationBucket(lv, visits[vid].location)))
  }

  /** Pushing the missing visit, with any existing user attached, restores
      the location index. */
  lemma LocationIndexInsert(m: map<Id, Visit>, users: set<Id>, lv: map<Id, seq<LocEntry>>, v: Visit, user: Id)
    requires LocationIndexValidExcept(m, users, lv, v.id)
    requires v.id in m && m[v.id] == v && user in users
    ensures LocationIndexValid(m, users, WithLocationVisit(lv, v, user))
  {
    var b := LocationBucket(lv, v.location);
    var r := b + [LocEntry(v.id, user)];
    VisitIdsAppend(b, LocEntry(v.id, user));
    assert LocationBucketValid(b, v.location, m, users) && v.id !in VisitIds(b);
    assert LocationBucketValid(r, v.location, m, users);
  }

  lemma LocationIndexExceptNew(visits: map<Id, Visit>, users: set<Id>, lv: map<Id, seq<LocEntry>>, v: Visit)
    requires LocationIndexValid(visits, users, lv)
    requires v.id !in visits
    ensures LocationIndexValidExcept(visits[v.id := v], users, lv, v.id)
  {
    var m := visits[v.id := v];
    forall l | l in lv ensures LocationBucketValid(lv[l], l, m, users) && v.id !in VisitIds(lv[l]) {
      assert LocationBucketValid(lv[l], l, visits, users);
    }
  }

  /** `add_visit` keeps the location index. */
  lemma LocationIndexAdd(visits: map<Id, Visit>, users: set<Id>, lv: map<Id, seq<LocEntry>>, v: Visit)
    requires LocationIndexValid(visits, users, lv)
    requires v.id !in visits && v.user in users
    ensures LocationIndexValid(visits[v.id := v], users, WithLocationVisit(lv, v, v.user))
  {
    LocationIndexExceptNew(visits, users, lv, v);
    LocationIndexInsert(visits[v.id := v], users, lv, v, v.user);
  }

  lemma LocationIndexRemove(visits: map<Id, Visit>, users: set<Id>, lv: map<Id, seq<LocEntry>>, orig: Visit, upd: Visit)
    requires LocationIndexValid(visits, users, lv)
    requires orig.id in visits && visits[orig.id] == orig && upd.id == orig.id
    ensures LocationIndexValidExcept(visits[orig.id := upd], users, WithoutLocationVisit(lv, orig), orig.id)
  {
    var m := visits[orig.id := upd];
    var lv1 := WithoutLocationVisit(lv, orig);
    var b := LocationBucket(lv, orig.location);
    var q := FirstIndexOf(VisitIds(b), orig.id);
    var r := RemoveAt(b, q);
    assert LocationBucketValid(b, orig.location, visits, users);
    VisitIdsRemoveAt(b, q);
    RemoveVisitIdMembers(VisitIds(b), orig.id);
    assert VisitIds(r) == RemoveVisitId(VisitIds(b), orig.id);
    forall i | 0 <= i < |r|
      ensures r[i].visit in m && m[r[i].visit].location == orig.location && r[i].user in users
    {
      assert r[i].visit in VisitIds(r);
    }
    assert LocationBucketValid(r, orig.location, m, users);
    forall l | l in lv1 ensures LocationBucketValid(lv1[l], l, m, users) && orig.id !in VisitIds(lv1[l]) {
      if l != orig.location {
        assert LocationBucketValid(lv[l], l, visits, users);
      }
    }
    forall vid | vid in m && vid != orig.id
      ensures vid in VisitIds(LocationBucket(lv1, m[vid].location))
    {
      assert vid in VisitIds(LocationBucket(lv, visits[vid].location));
    }
  }

  /** `update_visit`'s re-indexing on the location side (store.rs:294-298):
      the entry moves, and the updated user is attached to it. */
  lemma LocationIndexRelocate(visits: map<Id, Visit>, users: set<Id>, lv: map<Id, seq<LocEntry>>, orig: Visit, upd: Visit)
    requires LocationIndexValid(visits, users, lv)
    requires orig.id in visits && visits[orig.id] == orig && upd.id == orig.id && upd.user in users
    ensures LocationIndexValid(visits[orig.id := upd], users,
                               WithLocationVisit(WithoutLocationVisit(lv, orig), upd, upd.user))
  {
    LocationIndexRemove(visits, users, lv, orig, upd);
    LocationIndexInsert(visits[orig.id := upd], users, WithoutLocationVisit(lv, orig), upd, upd.user);
  }

  /** A patch that keeps the location needs no change to the location
      index, even when it changes the visit's user. */
  lemma LocationIndexSameLocation(visits: map<Id, Visit>, users: set<Id>, lv: map<Id, seq<LocEntry>>, orig: Visit, upd: Visit)
    requires LocationIndexValid(visits, users, lv)
    requires orig.id in visits && visits[orig.id] == orig && upd.id == orig.id
    requires upd.location == orig.location
    ensures LocationIndexValid(visits[orig.id := upd], users, lv)
  {
    var m := visits[orig.id := upd];
    forall l | l in lv ensures LocationBucketValid(lv[l], l, m, users) {
      var b := lv[l];
      assert LocationBucketValid(b, l, visits, users);
      forall i | 0 <= i < |b| ensures b[i].visit in m && m[b[i].visit].location == l {
      }
    }
    forall vid | vid in m ensures vid in VisitIds(LocationBucket(lv, m[vid].location)) {
      assert m[vid].location == visits[vid].location;
    }
  }

  /** Users are never removed, so adding or replacing one keeps every
      attached user existing. */
  lemma LocationIndexMoreUsers(visits: map<Id, Visit>, users: set<Id>, users': set<Id>, lv: map<Id, seq<LocEntry>>)
    requires LocationIndexValid(visits, users, lv) && users <= users'
    ensures LocationIndexValid(visits, users', lv)
  {
    forall l | l in lv ensures LocationBucketValid(lv[l], l, visits, users') {
      assert LocationBucketValid(lv[l], l, visits, users);
    }
  }

  /** Each visit is in the bucket of its current location exactly once,
      and in no other location's bucket. */
  lemma LocationIndexExactlyOnce(visits: map<Id, Visit>, users: set<Id>, lv: map<Id, seq<LocEntry>>, vid: Id)
    requires LocationIndexValid(visits, users, lv) && vid in visits
    ensures multiset(VisitIds(LocationBucket(lv, visits[vid].location)))[vid] == 1
    ensures forall l | l != visits[vid].location :: vid !in VisitIds(LocationBucket(lv, l))
  {
    var l0 := visits[vid].location;
    assert LocationBucketValid(lv[l0], l0, visits, users);
    NoDupOccursOnce(VisitIds(lv[l0]), vid);
    forall l | l != l0 ensures vid !in VisitIds(LocationBucket(lv, l)) {
      if l in lv {
        assert LocationBucketValid(lv[l], l, visits, users);
      }
    }
  }
}
