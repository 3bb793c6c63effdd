/** Value types of the entity store: the three entities, their patch shapes,
    the query options and results, and the field validators (src/models.rs). */
module Models {

  // Rust's fixed-width integers, as ranges of the unbounded `int`.
  type U8 = x: int | 0 <= x < 0x100
  type U32 = x: int | 0 <= x < 0x1_0000_0000
  type I32 = x: int | -0x8000_0000 <= x < 0x8000_0000
  type I64 = x: int | -0x8000_0000_0000_0000 <= x < 0x8000_0000_0000_0000

  type Id = U32
  /** Signed seconds since the epoch. */
  type Timestamp = I64
  type Mark = U8

  datatype Option<T> = None | Some(value: T) {
    /** Rust's `unwrap_or`. */
    function GetOr(default: T): T {
      match this
      case Some(v) => v
      case None => default
    }
  }

  /** The unit value the store returns on success (`Empty {}`). */
  datatype Empty = Empty

  // ----- entities and their patch shapes -----

  datatype User = User(
    id: Id,
    email: string,
    firstName: string,
    lastName: string,
    gender: char,
    birthDate: Timestamp)

  /** Patch for a user: a present field overwrites, an absent one keeps. */
  datatype UserData = UserData(
    email: Option<string>,
    firstName: Option<string>,
    lastName: Option<string>,
    gender: Option<char>,
    birthDate: Option<Timestamp>)

  datatype Location = Location(
    id: Id,
    place: string,
    country: string,
    city: string,
    distance: U32)

  datatype LocationData = LocationData(
    place: Option<string>,
    country: Option<string>,
    city: Option<string>,
    distance: Option<U32>)

  datatype Visit = Visit(
    id: Id,
    location: Id,
    user: Id,
    visitedAt: Timestamp,
    mark: Mark)

  datatype VisitData = VisitData(
    location: Option<Id>,
    user: Option<Id>,
    visitedAt: Option<Timestamp>,
    mark: Option<Mark>)

  // ----- query options and results -----

  datatype GetUserVisitsOptions = GetUserVisitsOptions(
    fromDate: Option<Timestamp>,
    toDate: Option<Timestamp>,
    country: Option<string>,
    toDistance: Option<U32>)

  /** One entry of a user's visit history. */
  datatype UserVisit = UserVisit(mark: Mark, visitedAt: Timestamp, place: string)

  datatype UserVisits = UserVisits(visits: seq<UserVisit>)

  datatype GetLocationAvgOptions = GetLocationAvgOptions(
    fromDate: Option<Timestamp>,
    toDate: Option<Timestamp>,
    fromAge: Option<I32>,
    toAge: Option<I32>,
    gender: Option<char>)

  /** A location's rating: the default (avg 0.0), or the mean of `count`
      marks summing to `sum`, which the store turns into a rounded float. */
  datatype LocationRate = DefaultRate | Average(sum: nat, count: nat)

  // `#[derive(Default)]` values: every optional field absent, empty results.
  const DefaultLocationData := LocationData(None, None, None, None)
  const DefaultVisitData := VisitData(None, None, None, None)
  const DefaultUserVisitsOptions := GetUserVisitsOptions(None, None, None, None)
  const DefaultLocationAvgOptions := GetLocationAvgOptions(None, None, None, None, None)
  const DefaultUserVisits := UserVisits([])
  const DefaultLocationRate := DefaultRate

  // ----- validation -----

  /** What a validation message says, without its formatting. */
  datatype Reason =
    | TooLong(len: nat, max: nat)
    | NotAllowed(gender: char, allowed: seq<char>)
    | TooHigh(mark: Mark, max: nat)
    | NotExists(id: Id)

  datatype ValidationError = ValidationError(field: string, message: Reason)

  /** Rust's `Result<(), ValidationError>`. */
  datatype ValidationResult = Pass | Fail(error: ValidationError)

  /** One field constraint of a validator: its field name, whether it holds,
      and what is reported when it does not. */
  datatype Check = Check(field: string, ok: bool, reason: Reason)

  /** Index of the first failing check, or |checks| when all hold. */
  function FirstFailingCheck(checks: seq<Check>): (k: nat)
    ensures k <= |checks|
    ensures forall j | 0 <= j < k :: checks[j].ok
    ensures k < |checks| ==> !checks[k].ok
  {
    if checks == [] || !checks[0].ok then 0 else 1 + FirstFailingCheck(checks[1..])
  }

  /** The first failing check is determined by its defining property. */
  lemma FirstFailingCheckIs(checks: seq<Check>, k: nat)
    requires k <= |checks|
    requires forall j | 0 <= j < k :: checks[j].ok
    requires k < |checks| ==> !checks[k].ok
    ensures FirstFailingCheck(checks) == k
  {
  }

  /** Number of bytes of the UTF-8 encoding of `c`. */
  function CharUtf8Len(c: char): (n: nat)
    ensures 1 <= n <= 4
    ensures n == 1 <==> c as int < 0x80
  {
    if c as int < 0x80 then 1
    else if c as int < 0x800 then 2
    else if c as int < 0x1_0000 then 3
    else 4
  }

  /** Rust's `String::len`: the length of the UTF-8 encoding in bytes. */
  function Utf8Len(s: string): nat
  {
    if s == [] then 0 else CharUtf8Len(s[0]) + Utf8Len(s[1..])
  }

  /** Every char takes one to four bytes, and exactly one for ASCII text. */
  lemma {:induction false} Utf8LenBounds(s: string)
    ensures |s| <= Utf8Len(s) <= 4 * |s|
    ensures Utf8Len(s) == |s| <==> forall i | 0 <= i < |s| :: s[i] as int < 0x80
  {
    if s != [] {
      Utf8LenBounds(s[1..]);
      assert forall i | 1 <= i < |s| :: s[i] == s[1..][i - 1];
    }
  }

  const MaxEmailLen: nat := 100
  const MaxNameLen: nat := 500
  const AllowedGender: seq<char> := ['f', 'm']
  const MaxCountryLen: nat := 50
  const MaxCityLen: nat := 50
  const MaxMark: nat := 5

  /** The user constraints in the order they are checked. */
  function UserChecks(u: User): seq<Check> {
    [ Check("email", Utf8Len(u.email) <= MaxEmailLen, TooLong(Utf8Len(u.email), MaxEmailLen)),
      Check("first_name", Utf8Len(u.firstName) <= MaxNameLen, TooLong(Utf8Len(u.firstName), MaxNameLen)),
      Check("last_name", Utf8Len(u.lastName) <= MaxNameLen, TooLong(Utf8Len(u.lastName), MaxNameLen)),
      Check("gender", u.gender in AllowedGender, NotAllowed(u.gender, AllowedGender)) ]
  }

  /** `impl Validate for User`. */
  function ValidateUser(u: User): (r: ValidationResult)
    ensures r.Pass? <==>
      Utf8Len(u.email) <= MaxEmailLen && Utf8Len(u.firstName) <= MaxNameLen &&
      Utf8Len(u.lastName) <= MaxNameLen && (u.gender == 'f' || u.gender == 'm')
    ensures r.Fail? ==>
      var k := FirstFailingCheck(UserChecks(u));
      k < 4 && r.error == ValidationError(UserChecks(u)[k].field, UserChecks(u)[k].reason)
  {
    if Utf8Len(u.email) > MaxEmailLen then
      Fail(ValidationError("email", TooLong(Utf8Len(u.email), MaxEmailLen)))
    else if Utf8Len(u.firstName) > MaxNameLen then
      Fail(ValidationError("first_name", TooLong(Utf8Len(u.firstName), MaxNameLen)))
    else if Utf8Len(u.lastName) > MaxNameLen then
      FirstFailingCheckIs(UserChecks(u), 2);
      Fail(ValidationError("last_name", TooLong(Utf8Len(u.lastName), MaxNameLen)))
    else if u.gender !in AllowedGender then
      FirstFailingCheckIs(UserChecks(u), 3);
      Fail(ValidationError("gender", NotAllowed(u.gender, AllowedGender)))
    else
      Pass
  }

  /** The location constraints in the order they are checked; the country
      is reported under the field name "contry". */
  function LocationChecks(l: Location): seq<Check> {
    [ Check("contry", Utf8Len(l.country) <= MaxCountryLen, TooLong(Utf8Len(l.country), MaxCountryLen)),
      Check("city", Utf8Len(l.city) <= MaxCityLen, TooLong(Utf8Len(l.city), MaxCityLen)) ]
  }

  /** `impl Validate for Location`. */
  function ValidateLocation(l: Location): (r: ValidationResult)
    ensures r.Pass? <==> Utf8Len(l.country) <= MaxCountryLen && Utf8Len(l.city) <= MaxCityLen
    ensures r.Fail? ==>
      var k := FirstFailingCheck(LocationChecks(l));
      k < 2 && r.error == ValidationError(LocationChecks(l)[k].field, LocationChecks(l)[k].reason)
  {
    if Utf8Len(l.country) > MaxCountryLen then
      Fail(ValidationError("contry", TooLong(Utf8Len(l.country), MaxCountryLen)))
    else if Utf8Len(l.city) > MaxCityLen then
      Fail(ValidationError("city", TooLong(Utf8Len(l.city), MaxCityLen)))
    else
      Pass
  }

  /** `impl Validate for Visit`. */
  function ValidateVisit(v: Visit): (r: ValidationResult)
    ensures r.Pass? <==> v.mark <= MaxMark
    ensures r.Fail? ==> r.error == ValidationError("mark", TooHigh(v.mark, MaxMark))
  {
    if v.mark > MaxMark then Fail(ValidationError("mark", TooHigh(v.mark, MaxMark))) else Pass
  }

  /** `id` and `birth_date` take no part in a user's validity. */
  lemma ValidateUserIgnoresIdAndBirthDate(u: User, id: Id, birthDate: Timestamp)
    ensures ValidateUser(u.(id := id, birthDate := birthDate)) == ValidateUser(u)
  {
  }

  /** `place` and `distance` take no part in a location's validity. */
  lemma ValidateLocationIgnoresPlaceAndDistance(l: Location, place: string, distance: U32)
    ensures ValidateLocation(l.(place := place, distance := distance)) == ValidateLocation(l)
  {
  }

  // ----- patching -----

  /** The copy of `u` that `update_user` validates: present fields of `d`
      overwrite, absent ones keep; the id is never patched. */
  function PatchUser(u: User, d: UserData): (r: User)
    ensures r.id == u.id
    ensures d.email.None? ==> r.email == u.email
    ensures d.firstName.None? ==> r.firstName == u.firstName
    ensures d.lastName.None? ==> r.lastName == u.lastName
    ensures d.gender.None? ==> r.gender == u.gender
    ensures d.birthDate.None? ==> r.birthDate == u.birthDate
    ensures d.email.Some? ==> r.email == d.email.value
    ensures d.firstName.Some? ==> r.firstName == d.firstName.value
    ensures d.lastName.Some? ==> r.lastName == d.lastName.value
    ensures d.gender.Some? ==> r.gender == d.gender.value
    ensures d.birthDate.Some? ==> r.birthDate == d.birthDate.value
  {
    User(u.id, d.email.GetOr(u.email), d.firstName.GetOr(u.firstName), d.lastName.GetOr(u.lastName),
         d.gender.GetOr(u.gender), d.birthDate.GetOr(u.birthDate))
  }

  function PatchLocation(l: Location, d: LocationData): (r: Location)
    ensures r.id == l.id
    ensures d == DefaultLocationData ==> r == l
    ensures d.place.None? ==> r.place == l.place
    ensures d.country.None? ==> r.country == l.country
    ensures d.city.None? ==> r.city == l.city
    ensures d.distance.None? ==> r.distance == l.distance
    ensures d.place.Some? ==> r.place == d.place.value
    ensures d.country.Some? ==> r.country == d.country.value
    ensures d.city.Some? ==> r.city == d.city.value
    ensures d.distance.Some? ==> r.distance == d.distance.value
  {
    Location(l.id, d.place.GetOr(l.place), d.country.GetOr(l.country), d.city.GetOr(l.city),
             d.distance.GetOr(l.distance))
  }

  function PatchVisit(v: Visit, d: VisitData): (r: Visit)
    ensures r.id == v.id
    ensures d == DefaultVisitData ==> r == v
    ensures d.location.None? ==> r.location == v.location
    ensures d.user.None? ==> r.user == v.user
    ensures d.visitedAt.None? ==> r.visitedAt == v.visitedAt
    ensures d.mark.None? ==> r.mark == v.mark
    ensures d.location.Some? ==> r.location == d.location.value
    ensures d.user.Some? ==> r.user == d.user.value
    ensures d.visitedAt.Some? ==> r.visitedAt == d.visitedAt.value
    ensures d.mark.Some? ==> r.mark == d.mark.value
  {
    Visit(v.id, d.location.GetOr(v.location), d.user.GetOr(v.user), d.visitedAt.GetOr(v.visitedAt),
          d.mark.GetOr(v.mark))
  }

  /** Applying the same patch twice is the same as applying it once. */
  lemma PatchIdempotent(u: User, d: UserData, l: Location, e: LocationData, v: Visit, f: VisitData)
    ensures PatchUser(PatchUser(u, d), d) == PatchUser(u, d)
    ensures PatchLocation(PatchLocation(l, e), e) == PatchLocation(l, e)
    ensures PatchVisit(PatchVisit(v, f), f) == PatchVisit(v, f)
  {
  }
}
