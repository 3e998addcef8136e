/** The user record of the directory and the values built from it. */
module UserModel {

  datatype Option<+T> = None | Some(value: T)

  datatype Result<+T, +E> = Ok(value: T) | Err(error: E)

  /** A positive integer: a validated page number or page size. */
  type PosInt = n: int | n >= 1 witness 1

  /** The day of the week of a registration timestamp, numbered as MongoDB's
      `$dayOfWeek` numbers it: 1 = Sunday, ..., 7 = Saturday. */
  type DayOfWeek = d: int | 1 <= d <= 7 witness 1

  /** A GeoJSON point: `kind` is the GeoJSON `type` member and
      `coordinates` holds [longitude, latitude] in that order. */
  datatype Point = Point(kind: string, coordinates: seq<real>)

  /** A stored user document. `registeredOn` stands for the weekday of
      `register_at`; `id` stands for the store-assigned `_id`. */
  datatype User = User(
    id: nat,
    name: string,
    email: string,
    password: string,
    address: string,
    latitude: real,
    longitude: real,
    location: Point,
    status: string,
    registeredOn: DayOfWeek)

  /** What a successful creation reports back about the new user. */
  datatype Profile = Profile(
    name: string,
    email: string,
    address: string,
    latitude: real,
    longitude: real,
    status: string,
    registeredOn: DayOfWeek)

  const Active: string := "active"
  const Inactive: string := "inactive"

  /** The GeoJSON point of a (latitude, longitude) pair. */
  function MakePoint(latitude: real, longitude: real): (p: Point)
    ensures p.kind == "Point"
    ensures |p.coordinates| == 2
    ensures p.coordinates[0] == longitude && p.coordinates[1] == latitude
  {
    Point("Point", [longitude, latitude])
  }

  /** Reads the latitude back out of a two-element GeoJSON point. */
  function PointLatitude(p: Point): real
    requires |p.coordinates| == 2
  {
    p.coordinates[1]
  }

  /** Reads the longitude back out of a two-element GeoJSON point. */
  function PointLongitude(p: Point): real
    requires |p.coordinates| == 2
  {
    p.coordinates[0]
  }

  /** Storing a pair as a point and reading it back gives the same pair. */
  lemma PointRoundTrip(latitude: real, longitude: real)
    ensures PointLatitude(MakePoint(latitude, longitude)) == latitude
    ensures PointLongitude(MakePoint(latitude, longitude)) == longitude
  {
  }

  /** The record that `User.create` stores for the given request
      fields: the given values verbatim, the location as a point, the
      status "active" and the day of week of the creation clock. */
  function NewUser(id: nat, name: string, email: string, password: string, address: string,
                   latitude: real, longitude: real, today: DayOfWeek): (u: User)
    ensures u.id == id && u.name == name && u.email == email && u.password == password
    ensures u.address == address && u.latitude == latitude && u.longitude == longitude
    ensures u.location.coordinates == [longitude, latitude] && u.location.kind == "Point"
    ensures u.status == Active && u.registeredOn == today
  {
    User(id, name, email, password, address, latitude, longitude,
         MakePoint(latitude, longitude), Active, today)
  }

  /** The profile fields of a stored record (the password is never among them). */
  function ProfileOf(u: User): (p: Profile)
    ensures p.name == u.name && p.email == u.email && p.address == u.address
    ensures p.latitude == u.latitude && p.longitude == u.longitude
    ensures p.status == u.status && p.registeredOn == u.registeredOn
  {
    Profile(u.name, u.email, u.address, u.latitude, u.longitude, u.status, u.registeredOn)
  }

  /** Some stored record has this email (what `User.findOne({ email })` finds). */
  predicate EmailTaken(users: seq<User>, email: string): (b: bool)
    ensures b <==> email in (set u | u in users :: u.email)
  {
    exists i :: 0 <= i < |users| && users[i].email == email
  }

  /** No two stored records share an email. */
  predicate EmailsUnique(users: seq<User>)
  {
    forall i, j :: 0 <= i < j < |users| ==> users[i].email != users[j].email
  }

  /** Every record's raw latitude and longitude agree with its point. */
  predicate LocationsConsistent(users: seq<User>)
  {
    forall i :: 0 <= i < |users| ==> users[i].location == MakePoint(users[i].latitude, users[i].longitude)
  }

  /** Appending a record whose email is new keeps the emails unique. */
  lemma AppendKeepsEmailsUnique(users: seq<User>, u: User)
    requires EmailsUnique(users)
    requires !EmailTaken(users, u.email)
    ensures EmailsUnique(users + [u])
  {
  }
}
