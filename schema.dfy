/**
  The database schema: the record shapes of the four tables, their column
  defaults, their key, uniqueness and foreign-key constraints, and the
  validator applied to a registration body.

  Timestamps (created/updated, departure/arrival) are not modelled: no logic
  of the service reads them. Integer columns are unbounded here.
 */
module Schema {
  import opened Wrappers

  /** The key of a booking (a `uuid` column, rendered as text). */
  type Uuid = string

  const RoleAdmin: string := "admin"
  const RoleUser: string := "user"

  /** The default of `bookings.booking_status`. */
  const StatusConfirmed: string := "confirmed"

  /** A row of `users`; `password` holds the bcrypt hash. */
  datatype User = User(id: int, name: string, email: string, password: string, role: string)

  /** A user as the register response shows it: every column but the password. */
  datatype PublicUser = PublicUser(id: int, name: string, email: string, role: string)

  /** A row of `trains`. */
  datatype Train = Train(id: int, name: string, source: string, destination: string, totalSeats: int)

  /** A row of `bookings`. */
  datatype Booking = Booking(id: Uuid, userId: int, trainId: int, seatNumber: int, bookingStatus: string)

  /** A row of `seat_availability`. */
  datatype SeatAvailability = SeatAvailability(id: int, trainId: int, source: string, destination: string, availableSeats: int)

  /**
    An insert body for `users`. The serial `id` and the defaulted `role` are
    optional columns of the insert schema, so a client may supply either.
   */
  datatype NewUser = NewUser(id: Option<int>, name: string, email: string, password: string, role: Option<string>)

  /** An insert body for `trains`; as for users, the serial `id` may be supplied. */
  datatype NewTrain = NewTrain(id: Option<int>, name: string, source: string, destination: string, totalSeats: int)

  predicate KnownRole(role: string) {
    role == RoleAdmin || role == RoleUser
  }

  /**
    A string's length as JavaScript counts it: one UTF-16 code unit for a
    character below U+10000, two (a surrogate pair) for one above.
   */
  function Utf16Length(s: string): (n: nat)
    ensures |s| <= n <= 2 * |s|
  {
    if s == [] then 0
    else (if s[0] as int >= 0x10000 then 2 else 1) + Utf16Length(s[1..])
  }

  /** A name made of one emoji is two code units long, so the validator accepts it. */
  lemma OneEmojiNameIsLongEnough()
    ensures |"\U{1F600}"| == 1 && Utf16Length("\U{1F600}") == 2
    ensures InsertUserValid(NewUser(None, "\U{1F600}", "a@b.c", "secret", None), _ => true)
  {
    assert "\U{1F600}"[1..] == [];
  }

  /**
    `insertUserSchema`: a well-formed email (decided by the validation library,
    here the parameter `isEmail`), a password of at least 6 UTF-16 code units, a
    name of at least 2, and, when a role is given, one of the two roles.
   */
  predicate InsertUserValid(u: NewUser, isEmail: string -> bool): (ok: bool)
    ensures ok ==> isEmail(u.email) && |u.password| >= 3 && |u.name| >= 1
    ensures ok ==> u.role.None? || u.role.value == RoleAdmin || u.role.value == RoleUser
    ensures isEmail(u.email) && |u.password| >= 6 && |u.name| >= 2 && (u.role.Some? ==> KnownRole(u.role.value)) ==> ok
  {
    && isEmail(u.email)
    && Utf16Length(u.password) >= 6
    && Utf16Length(u.name) >= 2
    && (u.role.Some? ==> KnownRole(u.role.value))
  }

  /** The row the database stores for a validated body, filling in the role default. */
  function UserRow(u: NewUser, id: int, hashed: string): (r: User)
    requires u.role.Some? ==> KnownRole(u.role.value)
    ensures KnownRole(r.role)
    ensures u.role.None? ==> r.role == RoleUser
    ensures u.role.Some? ==> r.role == u.role.value
  {
    User(id, u.name, u.email, hashed, if u.role.Some? then u.role.value else RoleUser)
  }

  /** The row the database stores for a booking insert, filling in the status default. */
  function BookingRow(id: Uuid, userId: int, trainId: int, seatNumber: int): (b: Booking)
    ensures b.bookingStatus == StatusConfirmed
  {
    Booking(id, userId, trainId, seatNumber, StatusConfirmed)
  }

  /** The user as the register response shows it: every column but the password. */
  function WithoutPassword(u: User): (p: PublicUser)
    ensures p.id == u.id && p.name == u.name && p.email == u.email && p.role == u.role
  {
    PublicUser(u.id, u.name, u.email, u.role)
  }

  function UserIds(us: seq<User>): set<int> {
    set u | u in us :: u.id
  }

  function Emails(us: seq<User>): set<string> {
    set u | u in us :: u.email
  }

  function TrainIds(ts: seq<Train>): set<int> {
    set t | t in ts :: t.id
  }

  function SeatRowIds(rs: seq<SeatAvailability>): set<int> {
    set r | r in rs :: r.id
  }

  function BookingIds(bs: seq<Booking>): set<Uuid> {
    set b | b in bs :: b.id
  }

  /** `users`: primary key `id`, unique `email`, and every row has a name of at least two code units and a known role. */
  ghost predicate UsersTable(us: seq<User>) {
    && (forall i, j :: 0 <= i < j < |us| ==> us[i].id != us[j].id && us[i].email != us[j].email)
    && (forall u :: u in us ==> Utf16Length(u.name) >= 2 && KnownRole(u.role))
  }

  /** `trains`: primary key `id`. */
  ghost predicate TrainsTable(ts: seq<Train>) {
    forall i, j :: 0 <= i < j < |ts| ==> ts[i].id != ts[j].id
  }

  /** `seat_availability`: primary key `id`; `train_id` references `trains`. */
  ghost predicate SeatsTable(rs: seq<SeatAvailability>, ts: seq<Train>) {
    && (forall i, j :: 0 <= i < j < |rs| ==> rs[i].id != rs[j].id)
    && (forall r :: r in rs ==> r.trainId in TrainIds(ts))
  }

  /** `bookings`: primary key `id`; `user_id` references `users`, `train_id` references `trains`. */
  ghost predicate BookingsTable(bs: seq<Booking>, us: seq<User>, ts: seq<Train>) {
    && (forall i, j :: 0 <= i < j < |bs| ==> bs[i].id != bs[j].id)
    && (forall b :: b in bs ==> b.userId in UserIds(us) && b.trainId in TrainIds(ts))
  }

  // Inserting a row that respects the constraints keeps them.

  lemma UsersTableAppend(us: seq<User>, u: User)
    requires UsersTable(us)
    requires u.id !in UserIds(us) && u.email !in Emails(us)
    requires Utf16Length(u.name) >= 2 && KnownRole(u.role)
    ensures UsersTable(us + [u])
    ensures UserIds(us + [u]) == UserIds(us) + {u.id}
  {
    forall i | 0 <= i < |us| ensures us[i].id != u.id && us[i].email != u.email {
      assert us[i] in us;
    }
    forall x | x in UserIds(us) ensures x in UserIds(us + [u]) {
      var v :| v in us && v.id == x;
      assert v in us + [u];
    }
    assert u in us + [u];
  }

  lemma TrainsTableAppend(ts: seq<Train>, t: Train)
    requires TrainsTable(ts) && t.id !in TrainIds(ts)
    ensures TrainsTable(ts + [t])
    ensures TrainIds(ts + [t]) == TrainIds(ts) + {t.id}
  {
    forall i | 0 <= i < |ts| ensures ts[i].id != t.id {
      assert ts[i] in ts;
    }
    forall x | x in TrainIds(ts) ensures x in TrainIds(ts + [t]) {
      var v :| v in ts && v.id == x;
      assert v in ts + [t];
    }
    assert t in ts + [t];
  }

  lemma SeatsTableAppend(rs: seq<SeatAvailability>, ts: seq<Train>, r: SeatAvailability, t: Train)
    requires SeatsTable(rs, ts) && r.id !in SeatRowIds(rs) && r.trainId == t.id
    requires TrainIds(ts + [t]) == TrainIds(ts) + {t.id}
    ensures SeatsTable(rs + [r], ts + [t])
  {
    forall i | 0 <= i < |rs| ensures rs[i].id != r.id {
      assert rs[i] in rs;
    }
  }

  lemma BookingsTableAppend(bs: seq<Booking>, us: seq<User>, ts: seq<Train>, b: Booking)
    requires BookingsTable(bs, us, ts)
    requires b.id !in BookingIds(bs) && b.userId in UserIds(us) && b.trainId in TrainIds(ts)
    ensures BookingsTable(bs + [b], us, ts)
  {
    forall i | 0 <= i < |bs| ensures bs[i].id != b.id {
      assert bs[i] in bs;
    }
  }

  lemma BookingsTableWiden(bs: seq<Booking>, us: seq<User>, ts: seq<Train>, us': seq<User>, ts': seq<Train>)
    requires BookingsTable(bs, us, ts)
    requires UserIds(us) <= UserIds(us') && TrainIds(ts) <= TrainIds(ts')
    ensures BookingsTable(bs, us', ts')
  {
  }
}
