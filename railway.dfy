/**
  The booking service's request handlers over four tables: users, trains,
  seat availability (one row per train, holding its count of free seats) and
  bookings.

  Each handler is specified by a step function on a snapshot of the tables
  (`AddTrainStep`, `ReserveStep`, `RegisterStep`): the response it gives and
  the tables it leaves. `Database` holds the tables and performs the same
  handlers statement by statement; its methods are proved to follow the step
  functions and to keep `Consistent`, the invariant that ties every
  seat-availability row to its train and to the bookings made against it.
 */
module Railway {
  import opened Wrappers
  import opened Http
  import opened Schema
  import opened Auth

  const SourceDestinationRequired: HttpError := HttpError(400, "Source and destination are required")
  const NoSeatsAvailable: HttpError := HttpError(400, "No seats available")
  const BookingNotFound: HttpError := HttpError(404, "Booking not found")
  const EmailAlreadyExists: HttpError := HttpError(400, "Email already exists")
  /** The request validator's 400 response; its list of issues is not modelled. */
  const ValidationFailed: HttpError := HttpError(400, "Validation failed")

  /**
    A snapshot of the database: the four tables, each in insertion order, and
    the last value drawn from each serial sequence.
   */
  datatype Db = Db(
    users: seq<User>,
    trains: seq<Train>,
    seats: seq<SeatAvailability>,
    bookings: seq<Booking>,
    userSerial: int,
    trainSerial: int,
    seatSerial: int)

  const EmptyDb: Db := Db([], [], [], [], 0, 0, 0)

  /** What a handler answers and the tables it leaves behind. */
  datatype Step<T> = Step(response: Result<T, HttpError>, after: Db)

  // ---------------------------------------------------------------------
  // Seat numbers and the seat ledger
  // ---------------------------------------------------------------------

  /** `n` consecutive numbers counting down from `top`. */
  function Countdown(top: int, n: nat): (s: seq<int>)
    ensures |s| == n
  {
    if n == 0 then [] else Countdown(top, n - 1) + [top - (n - 1)]
  }

  lemma {:induction false} CountdownAt(top: int, n: nat, k: nat)
    requires k < n
    ensures Countdown(top, n)[k] == top - k
  {
    if k < n - 1 {
      CountdownAt(top, n - 1, k);
    }
  }

  /** The seat numbers of the bookings on train `trainId`, one per booking, in booking order. */
  function Issued(bs: seq<Booking>, trainId: int): (s: seq<int>)
    ensures |s| <= |bs|
  {
    if bs == [] then []
    else
      var last := bs[|bs| - 1];
      Issued(bs[..|bs| - 1], trainId) + (if last.trainId == trainId then [last.seatNumber] else [])
  }

  lemma IssuedAppend(bs: seq<Booking>, b: Booking, trainId: int)
    ensures Issued(bs + [b], trainId) == Issued(bs, trainId) + (if b.trainId == trainId then [b.seatNumber] else [])
  {
    assert (bs + [b])[..|bs|] == bs;
  }

  lemma {:induction false} IssuedNone(bs: seq<Booking>, trainId: int)
    requires forall b :: b in bs ==> b.trainId != trainId
    ensures Issued(bs, trainId) == []
  {
    if bs != [] {
      IssuedNone(bs[..|bs| - 1], trainId);
    }
  }

  /** The seats issued by the first `n` bookings are a prefix of those issued by all of them. */
  lemma {:induction false} IssuedPrefix(bs: seq<Booking>, n: nat, trainId: int)
    requires n <= |bs|
    ensures Issued(bs[..n], trainId) <= Issued(bs, trainId)
  {
    if n < |bs| {
      var init := bs[..|bs| - 1];
      assert init[..n] == bs[..n];
      IssuedPrefix(init, n, trainId);
    } else {
      assert bs[..n] == bs;
    }
  }

  /** Booking `x` on a train holds the seat at position |Issued(bs[..x])| of that train's issued seats. */
  lemma IssuedAt(bs: seq<Booking>, x: nat, trainId: int)
    requires x < |bs| && bs[x].trainId == trainId
    ensures |Issued(bs[..x], trainId)| < |Issued(bs, trainId)|
    ensures Issued(bs, trainId)[|Issued(bs[..x], trainId)|] == bs[x].seatNumber
  {
    assert bs[..x + 1] == bs[..x] + [bs[x]];
    IssuedAppend(bs[..x], bs[x], trainId);
    IssuedPrefix(bs, x + 1, trainId);
  }

  /**
    The ledger of one train: its availability row copies the train's route,
    and the bookings made against it hold the seats counted down from
    `totalSeats + 1`, one per seat taken from `availableSeats`.
   */
  ghost predicate RowLedger(t: Train, r: SeatAvailability, bs: seq<Booking>) {
    && r.trainId == t.id
    && r.source == t.source
    && r.destination == t.destination
    && r.availableSeats <= t.totalSeats
    && (0 <= r.availableSeats || r.availableSeats == t.totalSeats)
    && Issued(bs, t.id) == Countdown(t.totalSeats + 1, t.totalSeats - r.availableSeats)
  }

  /**
    The invariant every handler keeps: the schema's key, uniqueness and
    foreign-key constraints; every booking confirmed; and one availability row
    per train (row `i` belongs to train `i`), drawn from the row serial and
    keeping its train's ledger.
   */
  ghost predicate Consistent(db: Db) {
    && UsersTable(db.users)
    && TrainsTable(db.trains)
    && SeatsTable(db.seats, db.trains)
    && BookingsTable(db.bookings, db.users, db.trains)
    && AllConfirmed(db.bookings)
    && RowIdsDrawn(db.seats, db.seatSerial)
    && Ledgers(db.trains, db.seats, db.bookings)
  }

  /** Row `i` is the availability row of train `i` and keeps that train's ledger. */
  ghost predicate Ledgers(ts: seq<Train>, rs: seq<SeatAvailability>, bs: seq<Booking>) {
    |rs| == |ts| && forall i :: 0 <= i < |rs| ==> RowLedger(ts[i], rs[i], bs)
  }

  /** Every row id was drawn from the row serial, whose last value is `serial`. */
  ghost predicate RowIdsDrawn(rs: seq<SeatAvailability>, serial: int) {
    0 <= serial && forall r :: r in rs ==> 0 < r.id <= serial
  }

  /** Every booking carries the default status. */
  ghost predicate AllConfirmed(bs: seq<Booking>) {
    forall b :: b in bs ==> b.bookingStatus == StatusConfirmed
  }

  /** A new train with no bookings and its fresh row (every seat free) keep the ledgers. */
  lemma AddTrainKeepsLedgers(ts: seq<Train>, rs: seq<SeatAvailability>, bs: seq<Booking>, t: Train, r: SeatAvailability)
    requires Ledgers(ts, rs, bs)
    requires forall b :: b in bs ==> b.trainId != t.id
    requires r.trainId == t.id && r.source == t.source && r.destination == t.destination
    requires r.availableSeats == t.totalSeats
    ensures Ledgers(ts + [t], rs + [r], bs)
  {
    IssuedNone(bs, t.id);
    forall i | 0 <= i < |rs| + 1 ensures RowLedger((ts + [t])[i], (rs + [r])[i], bs) {
      if i < |rs| {
        assert RowLedger(ts[i], rs[i], bs);
      }
    }
  }

  /**
    A booking on train `k` holding seat `availableSeats + 1`, together with the
    count of row `k` lowered by one, keeps the ledgers.
   */
  lemma ReserveKeepsLedgers(ts: seq<Train>, rs: seq<SeatAvailability>, bs: seq<Booking>, k: nat, b: Booking)
    requires Ledgers(ts, rs, bs) && TrainsTable(ts)
    requires k < |rs| && rs[k].availableSeats > 0
    requires b.trainId == ts[k].id && b.seatNumber == rs[k].availableSeats + 1
    ensures Ledgers(ts, rs[k := rs[k].(availableSeats := rs[k].availableSeats - 1)], bs + [b])
  {
    var rs' := rs[k := rs[k].(availableSeats := rs[k].availableSeats - 1)];
    forall i | 0 <= i < |rs'| ensures RowLedger(ts[i], rs'[i], bs + [b]) {
      IssuedAppend(bs, b, ts[i].id);
      assert RowLedger(ts[i], rs[i], bs);
      if i < k {
        assert ts[i].id != ts[k].id;
      } else if k < i {
        assert ts[k].id != ts[i].id;
      }
    }
  }

  lemma EmptyDbConsistent()
    ensures Consistent(EmptyDb)
  {
  }

  // ---------------------------------------------------------------------
  // Queries on the tables
  // ---------------------------------------------------------------------

  /**
    `select from seat_availability where train_id = trainId limit 1`: the
    position of a row for the train, if there is one. The query has no
    ordering; under `Consistent` there is exactly one such row.
   */
  function RowFor(rs: seq<SeatAvailability>, trainId: int): (k: Option<nat>)
    ensures k.Some? ==> k.value < |rs| && rs[k.value].trainId == trainId
    ensures k.None? ==> forall r :: r in rs ==> r.trainId != trainId
  {
    if rs == [] then None
    else if rs[0].trainId == trainId then Some(0)
    else
      match RowFor(rs[1..], trainId)
      case None => None
      case Some(k) => Some(k + 1)
  }

  /** `update seat_availability set available_seats = v where id = rowId`. */
  function SetAvailableWhereId(rs: seq<SeatAvailability>, rowId: int, v: int): (r: seq<SeatAvailability>)
    ensures |r| == |rs|
    ensures forall i :: 0 <= i < |rs| ==>
      r[i] == if rs[i].id == rowId then rs[i].(availableSeats := v) else rs[i]
  {
    if rs == [] then []
    else
      [if rs[0].id == rowId then rs[0].(availableSeats := v) else rs[0]]
        + SetAvailableWhereId(rs[1..], rowId, v)
  }

  /** With row ids distinct, the update by id changes exactly the row at `k`. */
  lemma UpdateWhereIdHitsOneRow(rs: seq<SeatAvailability>, k: nat, v: int, ts: seq<Train>)
    requires k < |rs| && SeatsTable(rs, ts)
    ensures SetAvailableWhereId(rs, rs[k].id, v) == rs[k := rs[k].(availableSeats := v)]
  {
    forall j | 0 <= j < |rs| && j != k ensures rs[j].id != rs[k].id {
      if j < k {
        assert rs[j].id != rs[k].id;
      } else {
        assert rs[k].id != rs[j].id;
      }
    }
  }

  /** The train with id `id`, if there is one. */
  function TrainById(ts: seq<Train>, id: int): (r: Option<Train>)
    ensures r.Some? ==> r.value in ts && r.value.id == id
    ensures r.None? ==> forall t :: t in ts ==> t.id != id
  {
    if ts == [] then None
    else if ts[0].id == id then Some(ts[0])
    else TrainById(ts[1..], id)
  }

  // ---------------------------------------------------------------------
  // POST /api/admin/trains
  // ---------------------------------------------------------------------

  /**
    Adding a train: insert the train (its id supplied or drawn from the train
    serial), then insert its availability row with every seat free. A
    supplied or drawn id already in use violates the primary key; nothing
    catches that, so the answer is 500 and no row is added (a drawn serial
    value stays drawn).
   */
  function AddTrainStep(db: Db, body: NewTrain): (s: Step<Train>)
    ensures s.after.users == db.users && s.after.bookings == db.bookings
    ensures s.after.userSerial == db.userSerial
    ensures s.after.trainSerial == (if body.id.Some? then db.trainSerial else db.trainSerial + 1)
    ensures s.after.seatSerial == (if s.response.Success? then db.seatSerial + 1 else db.seatSerial)
    ensures s.response.Failure? <==>
      (if body.id.Some? then body.id.value else db.trainSerial + 1) in TrainIds(db.trains)
    ensures s.response.Failure? ==>
      && s.response.error == InternalServerError
      && s.after.trains == db.trains && s.after.seats == db.seats
    ensures s.response.Success? ==>
      var t := s.response.value;
      && t.id !in TrainIds(db.trains)
      && t.id == (if body.id.Some? then body.id.value else db.trainSerial + 1)
      && t.name == body.name && t.source == body.source && t.destination == body.destination
      && t.totalSeats == body.totalSeats
      && s.after.trains == db.trains + [t]
      && |s.after.seats| == |db.seats| + 1
      && s.after.seats[..|db.seats|] == db.seats
      && var row := s.after.seats[|db.seats|];
         && row.id == s.after.seatSerial == db.seatSerial + 1
         && row.trainId == t.id
         && row.source == t.source && row.destination == t.destination
         && row.availableSeats == t.totalSeats
  {
    var id := if body.id.Some? then body.id.value else db.trainSerial + 1;
    var trainSerial := if body.id.Some? then db.trainSerial else db.trainSerial + 1;
    if id in TrainIds(db.trains) then
      Step(Failure(InternalServerError), db.(trainSerial := trainSerial))
    else
      var t := Train(id, body.name, body.source, body.destination, body.totalSeats);
      var row := SeatAvailability(db.seatSerial + 1, t.id, t.source, t.destination, t.totalSeats);
      assert (db.seats + [row])[..|db.seats|] == db.seats;
      Step(Success(t), db.(trains := db.trains + [t], seats := db.seats + [row],
                           trainSerial := trainSerial, seatSerial := db.seatSerial + 1))
  }

  lemma TrainIdAt(ts: seq<Train>, i: nat)
    requires i < |ts|
    ensures ts[i].id in TrainIds(ts)
  {
    assert ts[i] in ts;
  }

  /**
    Adding a train keeps the invariant; on success its row is new and has a
    fresh id, and no booking refers to the new train yet.
   */
  lemma AddTrainPreserves(db: Db, body: NewTrain)
    requires Consistent(db)
    ensures Consistent(AddTrainStep(db, body).after)
    ensures AddTrainStep(db, body).response.Success? ==>
      var d := AddTrainStep(db, body).after;
      && d.seats[|db.seats|].id !in SeatRowIds(db.seats)
      && Issued(d.bookings, d.trains[|db.trains|].id) == []
  {
    var s := AddTrainStep(db, body);
    if s.response.Success? {
      var t := s.response.value;
      var row := SeatAvailability(db.seatSerial + 1, t.id, t.source, t.destination, t.totalSeats);
      assert s.after == db.(trains := db.trains + [t], seats := db.seats + [row],
                            trainSerial := s.after.trainSerial, seatSerial := db.seatSerial + 1);
      forall b | b in db.bookings ensures b.trainId != t.id {
        assert b.trainId in TrainIds(db.trains);
      }
      IssuedNone(db.bookings, t.id);
      AddTrainKeepsLedgers(db.trains, db.seats, db.bookings, t, row);
      TrainsTableAppend(db.trains, t);
      forall r | r in db.seats + [row] ensures 0 < r.id <= db.seatSerial + 1 {
        if r in db.seats {
          assert 0 < r.id <= db.seatSerial;
        }
      }
      SeatsTableAppend(db.seats, db.trains, row, t);
      BookingsTableWiden(db.bookings, db.users, db.trains, db.users, db.trains + [t]);
    }
  }

  // ---------------------------------------------------------------------
  // POST /api/bookings
  // ---------------------------------------------------------------------

  /**
    Reserving a seat: find the train's availability row; with none, or with no
    seat free, answer "No seats available" and change nothing. Otherwise insert
    a booking for the caller whose seat number is the free-seat count plus one,
    then write back the count minus one, in one transaction. A booking insert
    that violates a key (a caller who is not a user, a booking id in use) rolls
    the transaction back and answers 500.
   */
  function ReserveStep(db: Db, caller: AuthUser, trainId: int, bookingId: Uuid): (s: Step<Booking>)
    ensures s.after.users == db.users && s.after.trains == db.trains
    ensures s.after.userSerial == db.userSerial && s.after.trainSerial == db.trainSerial
    ensures s.after.seatSerial == db.seatSerial
    ensures s.response.Failure? ==> s.after == db
    ensures s.response == Failure(NoSeatsAvailable) <==>
      RowFor(db.seats, trainId).None? || db.seats[RowFor(db.seats, trainId).value].availableSeats <= 0
    ensures s.response == Failure(InternalServerError) <==>
      && RowFor(db.seats, trainId).Some?
      && db.seats[RowFor(db.seats, trainId).value].availableSeats > 0
      && (caller.id !in UserIds(db.users) || bookingId in BookingIds(db.bookings))
    ensures s.response.Success? <==>
      && RowFor(db.seats, trainId).Some?
      && db.seats[RowFor(db.seats, trainId).value].availableSeats > 0
      && caller.id in UserIds(db.users) && bookingId !in BookingIds(db.bookings)
    ensures s.response.Success? ==>
      var k := RowFor(db.seats, trainId).value;
      var before := db.seats[k].availableSeats;
      var b := s.response.value;
      && b.id == bookingId && b.userId == caller.id && b.trainId == trainId
      && b.bookingStatus == StatusConfirmed
      && b.seatNumber == before + 1
      && s.after.bookings == db.bookings + [b]
      && |s.after.seats| == |db.seats|
      && s.after.seats[k] == db.seats[k].(availableSeats := before - 1)
      && (forall j :: 0 <= j < |db.seats| && j != k ==> s.after.seats[j] == db.seats[j])
  {
    match RowFor(db.seats, trainId)
    case None => Step(Failure(NoSeatsAvailable), db)
    case Some(k) =>
      var row := db.seats[k];
      if row.availableSeats <= 0 then
        Step(Failure(NoSeatsAvailable), db)
      else if caller.id !in UserIds(db.users) || bookingId in BookingIds(db.bookings) then
        Step(Failure(InternalServerError), db)
      else
        var b := BookingRow(bookingId, caller.id, trainId, row.availableSeats + 1);
        Step(Success(b), db.(bookings := db.bookings + [b],
                             seats := db.seats[k := row.(availableSeats := row.availableSeats - 1)]))
  }

  /** When a seat is free and the insert respects the keys, the reservation is this booking and this update. */
  lemma ReserveStepBooks(db: Db, caller: AuthUser, trainId: int, bookingId: Uuid, k: nat)
    requires RowFor(db.seats, trainId) == Some(k) && db.seats[k].availableSeats > 0
    requires caller.id in UserIds(db.users) && bookingId !in BookingIds(db.bookings)
    ensures
      var before := db.seats[k].availableSeats;
      var b := BookingRow(bookingId, caller.id, trainId, before + 1);
      ReserveStep(db, caller, trainId, bookingId)
        == Step(Success(b), db.(bookings := db.bookings + [b], seats := db.seats[k := db.seats[k].(availableSeats := before - 1)]))
  {
  }

  /** Under the invariant, the row found for a train is that train's own row. */
  lemma RowForTrain(db: Db, trainId: int)
    requires Consistent(db)
    ensures RowFor(db.seats, trainId).Some? <==> trainId in TrainIds(db.trains)
    ensures RowFor(db.seats, trainId).Some? ==> db.trains[RowFor(db.seats, trainId).value].id == trainId
  {
    var k := RowFor(db.seats, trainId);
    if trainId in TrainIds(db.trains) {
      var t :| t in db.trains && t.id == trainId;
      var i :| 0 <= i < |db.trains| && db.trains[i] == t;
      assert db.seats[i] in db.seats;
    }
    if k.Some? {
      assert db.trains[k.value].id == trainId;
    }
  }

  /** Changing the count of one row keeps the row keys, their train references and the serial bound. */
  lemma SameRowKeys(rs: seq<SeatAvailability>, k: nat, v: int, ts: seq<Train>, serial: int)
    requires k < |rs| && SeatsTable(rs, ts) && RowIdsDrawn(rs, serial)
    ensures SeatsTable(rs[k := rs[k].(availableSeats := v)], ts)
    ensures RowIdsDrawn(rs[k := rs[k].(availableSeats := v)], serial)
  {
    var rs' := rs[k := rs[k].(availableSeats := v)];
    forall i, j | 0 <= i < j < |rs'| ensures rs'[i].id != rs'[j].id {
      assert rs[i].id != rs[j].id;
    }
    forall r | r in rs' ensures r.trainId in TrainIds(ts) && 0 < r.id <= serial {
      var i :| 0 <= i < |rs'| && rs'[i] == r;
      assert rs[i] in rs;
    }
  }

  lemma ReservePreserves(db: Db, caller: AuthUser, trainId: int, bookingId: Uuid)
    requires Consistent(db)
    ensures Consistent(ReserveStep(db, caller, trainId, bookingId).after)
  {
    var s := ReserveStep(db, caller, trainId, bookingId);
    if s.response.Success? {
      var k := RowFor(db.seats, trainId).value;
      var row := db.seats[k];
      var b := s.response.value;
      var rs' := db.seats[k := row.(availableSeats := row.availableSeats - 1)];
      var d := db.(bookings := db.bookings + [b], seats := rs');
      assert s.after == d;
      RowForTrain(db, trainId);
      ReserveKeepsLedgers(db.trains, db.seats, db.bookings, k, b);
      TrainIdAt(db.trains, k);
      BookingsTableAppend(db.bookings, db.users, db.trains, b);
      SameRowKeys(db.seats, k, row.availableSeats - 1, db.trains, db.seatSerial);
      assert AllConfirmed(d.bookings);
    }
  }

  // ---------------------------------------------------------------------
  // POST /api/register
  // ---------------------------------------------------------------------

  /**
    Registering: the validator rejects a malformed body with 400; otherwise
    the user is inserted with the hashed password (id supplied or drawn from
    the user serial). Any unique violation, a repeated email or an id in use,
    is answered "Email already exists" and leaves the users unchanged. The
    response shows the new user without the password.
   */
  function RegisterStep(db: Db, body: NewUser, isEmail: string -> bool, hashed: string): (s: Step<PublicUser>)
    ensures s.after.trains == db.trains && s.after.seats == db.seats && s.after.bookings == db.bookings
    ensures s.after.trainSerial == db.trainSerial && s.after.seatSerial == db.seatSerial
    ensures s.response == Failure(ValidationFailed) <==> !InsertUserValid(body, isEmail)
    ensures s.response.Failure? ==> s.after.users == db.users
    ensures s.after.userSerial == (if InsertUserValid(body, isEmail) && body.id.None? then db.userSerial + 1 else db.userSerial)
    ensures InsertUserValid(body, isEmail) && body.email in Emails(db.users) ==>
      s.response == Failure(EmailAlreadyExists)
    ensures InsertUserValid(body, isEmail)
            && (if body.id.Some? then body.id.value else db.userSerial + 1) in UserIds(db.users) ==>
      s.response == Failure(EmailAlreadyExists)
    ensures s.response.Success? <==>
      && InsertUserValid(body, isEmail)
      && body.email !in Emails(db.users)
      && (if body.id.Some? then body.id.value else db.userSerial + 1) !in UserIds(db.users)
    ensures s.response.Success? ==>
      && |s.after.users| == |db.users| + 1
      && var u := s.after.users[|db.users|];
         && s.after.users == db.users + [u]
         && u.id == (if body.id.Some? then body.id.value else db.userSerial + 1)
         && u.id !in UserIds(db.users)
         && u.email == body.email && u.email !in Emails(db.users)
         && u.name == body.name && u.password == hashed
         && KnownRole(u.role) && (body.role.None? ==> u.role == RoleUser)
         && (body.role.Some? ==> u.role == body.role.value)
         && s.response.value == WithoutPassword(u)
  {
    if !InsertUserValid(body, isEmail) then
      Step(Failure(ValidationFailed), db)
    else
      var id := if body.id.Some? then body.id.value else db.userSerial + 1;
      var userSerial := if body.id.Some? then db.userSerial else db.userSerial + 1;
      if id in UserIds(db.users) || body.email in Emails(db.users) then
        Step(Failure(EmailAlreadyExists), db.(userSerial := userSerial))
      else
        var u := UserRow(body, id, hashed);
        Step(Success(WithoutPassword(u)), db.(users := db.users + [u], userSerial := userSerial))
  }

  lemma RegisterPreserves(db: Db, body: NewUser, isEmail: string -> bool, hashed: string)
    requires Consistent(db)
    ensures Consistent(RegisterStep(db, body, isEmail, hashed).after)
  {
    var s := RegisterStep(db, body, isEmail, hashed);
    if s.response.Success? {
      var u := s.after.users[|db.users|];
      UsersTableAppend(db.users, u);
      BookingsTableWiden(db.bookings, db.users, db.trains, db.users + [u], db.trains);
    }
  }

  // ---------------------------------------------------------------------
  // Every sequence of handler calls
  // ---------------------------------------------------------------------

  /** A state-changing request, already admitted by its gate. */
  datatype Op =
    | AddTrainOp(train: NewTrain)
    | ReserveOp(caller: AuthUser, trainId: int, bookingId: Uuid)
    | RegisterOp(user: NewUser, isEmail: string -> bool, hashed: string)

  function Apply(db: Db, op: Op): Db {
    match op
    case AddTrainOp(train) => AddTrainStep(db, train).after
    case ReserveOp(caller, trainId, bookingId) => ReserveStep(db, caller, trainId, bookingId).after
    case RegisterOp(user, isEmail, hashed) => RegisterStep(db, user, isEmail, hashed).after
  }

  /** The tables after handling `ops` one after another. */
  function Run(db: Db, ops: seq<Op>): Db
    decreases |ops|
  {
    if ops == [] then db else Run(Apply(db, ops[0]), ops[1..])
  }

  lemma {:induction false} RunPreservesConsistency(db: Db, ops: seq<Op>)
    requires Consistent(db)
    ensures Consistent(Run(db, ops))
    decreases |ops|
  {
    if ops != [] {
      match ops[0] {
        case AddTrainOp(train) => AddTrainPreserves(db, train);
        case ReserveOp(caller, trainId, bookingId) => ReservePreserves(db, caller, trainId, bookingId);
        case RegisterOp(user, isEmail, hashed) => RegisterPreserves(db, user, isEmail, hashed);
      }
      RunPreservesConsistency(Apply(db, ops[0]), ops[1..]);
    }
  }

  /**
    The seat ledger of train `i`: the bookings against it number
    `totalSeats - availableSeats`; the count stays within `0..totalSeats`;
    and its seat numbers, in booking order, strictly decrease from
    `totalSeats + 1`, all of them above `availableSeats + 1`.
   */
  lemma SeatLedger(db: Db, i: nat)
    requires Consistent(db) && i < |db.seats|
    ensures
      var t, r := db.trains[i], db.seats[i];
      var issued := Issued(db.bookings, t.id);
      && r.trainId == t.id
      && |issued| == t.totalSeats - r.availableSeats
      && (t.totalSeats >= 0 ==> 0 <= r.availableSeats <= t.totalSeats)
      && (forall a :: 0 <= a < |issued| ==> issued[a] == t.totalSeats + 1 - a)
      && (forall a, b :: 0 <= a < b < |issued| ==> issued[a] > issued[b])
      && (forall a :: 0 <= a < |issued| ==> r.availableSeats + 2 <= issued[a] <= t.totalSeats + 1)
  {
    var t, r := db.trains[i], db.seats[i];
    assert RowLedger(t, r, db.bookings);
    var issued := Issued(db.bookings, t.id);
    forall a | 0 <= a < |issued| ensures issued[a] == t.totalSeats + 1 - a {
      CountdownAt(t.totalSeats + 1, t.totalSeats - r.availableSeats, a);
    }
  }

  /**
    Along any sequence of requests from the empty database, the seat ledger of
    every train holds.
   */
  lemma LedgerAlongAnyRun(ops: seq<Op>, i: nat)
    requires i < |Run(EmptyDb, ops).trains|
    ensures
      var db := Run(EmptyDb, ops);
      && |db.seats| == |db.trains|
      && var t, r := db.trains[i], db.seats[i];
      && r.trainId == t.id
      && |Issued(db.bookings, t.id)| == t.totalSeats - r.availableSeats
      && (t.totalSeats >= 0 ==> 0 <= r.availableSeats <= t.totalSeats)
  {
    EmptyDbConsistent();
    RunPreservesConsistency(EmptyDb, ops);
    SeatLedger(Run(EmptyDb, ops), i);
  }

  /**
    Two bookings on one train never share a seat number: the later booking
    holds a strictly smaller number, and every number lies between
    `availableSeats + 2` and `totalSeats + 1`.
   */
  lemma BookingSeatNumbers(db: Db, i: nat)
    requires Consistent(db) && i < |db.seats|
    ensures forall x :: 0 <= x < |db.bookings| && db.bookings[x].trainId == db.trains[i].id ==>
      db.seats[i].availableSeats + 2 <= db.bookings[x].seatNumber <= db.trains[i].totalSeats + 1
    ensures forall x, y :: 0 <= x < y < |db.bookings| && db.bookings[x].trainId == db.trains[i].id
                           && db.bookings[y].trainId == db.trains[i].id ==>
      db.bookings[x].seatNumber > db.bookings[y].seatNumber
  {
    var t, r, bs, tid := db.trains[i], db.seats[i], db.bookings, db.trains[i].id;
    assert RowLedger(t, r, bs);
    forall x | 0 <= x < |bs| && bs[x].trainId == tid
      ensures r.availableSeats + 2 <= bs[x].seatNumber <= t.totalSeats + 1
    {
      BookingSeat(t, r, bs, x);
    }
    forall x, y | 0 <= x < y < |bs| && bs[x].trainId == tid && bs[y].trainId == tid
      ensures bs[x].seatNumber > bs[y].seatNumber
    {
      BookingSeat(t, r, bs, x);
      BookingSeat(t, r, bs, y);
      IssuedGrows(bs, x, y, tid);
    }
  }

  /** Booking `x` on train `t` holds the seat counted down by the bookings on that train before it. */
  lemma BookingSeat(t: Train, r: SeatAvailability, bs: seq<Booking>, x: nat)
    requires RowLedger(t, r, bs)
    requires x < |bs| && bs[x].trainId == t.id
    ensures
      var before := |Issued(bs[..x], t.id)|;
      && before < t.totalSeats - r.availableSeats
      && bs[x].seatNumber == t.totalSeats + 1 - before
  {
    IssuedAt(bs, x, t.id);
    CountdownAt(t.totalSeats + 1, t.totalSeats - r.availableSeats, |Issued(bs[..x], t.id)|);
  }

  /** A booking on the train between `x` and `y` makes the count of earlier seats grow. */
  lemma IssuedGrows(bs: seq<Booking>, x: nat, y: nat, trainId: int)
    requires x < y <= |bs| && bs[x].trainId == trainId
    ensures |Issued(bs[..x], trainId)| < |Issued(bs[..y], trainId)|
  {
    assert bs[..y][..x] == bs[..x];
    IssuedAt(bs[..y], x, trainId);
  }

  /**
    The seat numbering as written is off by one: the first booking on a
    one-seat train gets seat 2, a seat the train does not have.
   */
  lemma OneSeatTrainGetsSeatTwo(db: Db, body: NewTrain, caller: AuthUser, bookingId: Uuid)
    requires Consistent(db)
    requires body.totalSeats == 1
    requires AddTrainStep(db, body).response.Success?
    requires caller.id in UserIds(db.users) && bookingId !in BookingIds(db.bookings)
    ensures
      var added := AddTrainStep(db, body);
      var booked := ReserveStep(added.after, caller, added.response.value.id, bookingId).response;
      && booked.Success?
      && booked.value.seatNumber == 2 > added.response.value.totalSeats
  {
    var added := AddTrainStep(db, body);
    var d, t := added.after, added.response.value;
    AddTrainPreserves(db, body);
    RowForTrain(d, t.id);
    TrainIdAt(d.trains, |db.trains|);
    var n := |db.trains|;
    var k := RowFor(d.seats, t.id).value;
    assert d.trains[k].id == d.trains[n].id;
    assert k == n;
  }

  /**
    The intended seat number: the count of seats already taken plus
    one, so that the seats of a train run from 1 to `totalSeats`.
   */
  function CorrectedSeatNumber(totalSeats: int, availableSeats: int): int {
    totalSeats - availableSeats + 1
  }

  /**
    With the intended numbering, the booking made when `issued[a] - 1` seats
    were free gets seat `a + 1`: every seat lies in `1..totalSeats`, and the
    bookings on a train hold pairwise distinct seats.
   */
  lemma CorrectedSeatsFitCapacity(db: Db, i: nat)
    requires Consistent(db) && i < |db.seats|
    ensures
      var t := db.trains[i];
      var issued := Issued(db.bookings, t.id);
      forall a :: 0 <= a < |issued| ==>
        && CorrectedSeatNumber(t.totalSeats, issued[a] - 1) == a + 1
        && 1 <= CorrectedSeatNumber(t.totalSeats, issued[a] - 1) <= t.totalSeats
  {
    SeatLedger(db, i);
  }

  /**
    Nothing bounds `totalSeats` from below, so a train added with a negative
    capacity gets a row whose free-seat count is negative from the start; the
    train can never be booked.
   */
  lemma NegativeCapacityTrain(db: Db, body: NewTrain, caller: AuthUser, bookingId: Uuid)
    requires Consistent(db)
    requires body.totalSeats < 0
    requires AddTrainStep(db, body).response.Success?
    ensures
      var added := AddTrainStep(db, body);
      && added.after.seats[|db.seats|].availableSeats == body.totalSeats < 0
      && ReserveStep(added.after, caller, added.response.value.id, bookingId).response == Failure(NoSeatsAvailable)
  {
    var added := AddTrainStep(db, body);
    var d, t := added.after, added.response.value;
    AddTrainPreserves(db, body);
    RowForTrain(d, t.id);
    TrainIdAt(d.trains, |db.trains|);
    var n := |db.trains|;
    var k := RowFor(d.seats, t.id).value;
    assert d.trains[k].id == d.trains[n].id;
    assert k == n;
  }

  /** Every free-seat count is at least zero. */
  ghost predicate CountsNonNegative(rs: seq<SeatAvailability>) {
    forall r :: r in rs ==> 0 <= r.availableSeats
  }

  /** Adding a train as a validator with a lower bound on `totalSeats` would: a negative capacity is refused. */
  function CheckedAddTrainStep(db: Db, body: NewTrain): Step<Train> {
    if body.totalSeats < 0 then Step(Failure(ValidationFailed), db) else AddTrainStep(db, body)
  }

  function CheckedApply(db: Db, op: Op): Db {
    match op
    case AddTrainOp(train) => CheckedAddTrainStep(db, train).after
    case _ => Apply(db, op)
  }

  /** The tables after handling `ops` with the checked add-train. */
  function CheckedRun(db: Db, ops: seq<Op>): Db
    decreases |ops|
  {
    if ops == [] then db else CheckedRun(CheckedApply(db, ops[0]), ops[1..])
  }

  lemma AddTrainKeepsCounts(db: Db, body: NewTrain)
    requires CountsNonNegative(db.seats) && body.totalSeats >= 0
    ensures CountsNonNegative(AddTrainStep(db, body).after.seats)
  {
    var s := AddTrainStep(db, body);
    if s.response.Success? {
      forall r | r in s.after.seats ensures 0 <= r.availableSeats {
        var i :| 0 <= i < |s.after.seats| && s.after.seats[i] == r;
        if i < |db.seats| {
          assert s.after.seats[..|db.seats|][i] == r;
          assert db.seats[i] in db.seats;
        }
      }
    }
  }

  lemma ReserveKeepsCounts(db: Db, caller: AuthUser, trainId: int, bookingId: Uuid)
    requires CountsNonNegative(db.seats)
    ensures CountsNonNegative(ReserveStep(db, caller, trainId, bookingId).after.seats)
  {
    var s := ReserveStep(db, caller, trainId, bookingId);
    if s.response.Success? {
      var k := RowFor(db.seats, trainId).value;
      forall r | r in s.after.seats ensures 0 <= r.availableSeats {
        var i :| 0 <= i < |s.after.seats| && s.after.seats[i] == r;
        assert db.seats[i] in db.seats;
      }
    }
  }

  /** With the checked add-train, every sequence of requests keeps the invariant and every count non-negative. */
  lemma {:induction false} CheckedRunKeepsCounts(db: Db, ops: seq<Op>)
    requires Consistent(db) && CountsNonNegative(db.seats)
    ensures Consistent(CheckedRun(db, ops)) && CountsNonNegative(CheckedRun(db, ops).seats)
    decreases |ops|
  {
    if ops != [] {
      match ops[0] {
        case AddTrainOp(train) =>
          if train.totalSeats >= 0 {
            AddTrainPreserves(db, train);
            AddTrainKeepsCounts(db, train);
          }
        case ReserveOp(caller, trainId, bookingId) =>
          ReservePreserves(db, caller, trainId, bookingId);
          ReserveKeepsCounts(db, caller, trainId, bookingId);
        case RegisterOp(user, isEmail, hashed) =>
          RegisterPreserves(db, user, isEmail, hashed);
      }
      CheckedRunKeepsCounts(CheckedApply(db, ops[0]), ops[1..]);
    }
  }

  /**
    With the checked add-train, along any sequence of requests from empty
    tables, every train's free-seat count lies in `0..totalSeats`.
   */
  lemma CheckedCountsInRange(ops: seq<Op>, i: nat)
    requires i < |CheckedRun(EmptyDb, ops).seats|
    ensures
      var db := CheckedRun(EmptyDb, ops);
      && i < |db.trains|
      && 0 <= db.seats[i].availableSeats <= db.trains[i].totalSeats
  {
    EmptyDbConsistent();
    CheckedRunKeepsCounts(EmptyDb, ops);
    var db := CheckedRun(EmptyDb, ops);
    assert RowLedger(db.trains[i], db.seats[i], db.bookings);
    assert db.seats[i] in db.seats;
  }

  // ---------------------------------------------------------------------
  // GET /api/trains/availability
  // ---------------------------------------------------------------------

  /** The join condition: the row is the train's and is on the route asked for, by exact string equality. */
  predicate OnRoute(t: Train, r: SeatAvailability, source: string, destination: string) {
    r.trainId == t.id && r.source == source && r.destination == destination
  }

  function RouteRows(t: Train, rs: seq<SeatAvailability>, source: string, destination: string)
    : (m: seq<(Train, SeatAvailability)>)
    ensures forall p :: p in m <==> p.0 == t && p.1 in rs && OnRoute(p.0, p.1, source, destination)
  {
    if rs == [] then []
    else
      (if OnRoute(t, rs[0], source, destination) then [(t, rs[0])] else [])
        + RouteRows(t, rs[1..], source, destination)
  }

  /** `trains inner join seat_availability on (train id, source, destination)`. */
  function RouteJoin(ts: seq<Train>, rs: seq<SeatAvailability>, source: string, destination: string)
    : (m: seq<(Train, SeatAvailability)>)
    ensures forall p :: p in m <==> p.0 in ts && p.1 in rs && OnRoute(p.0, p.1, source, destination)
  {
    if ts == [] then []
    else RouteRows(ts[0], rs, source, destination) + RouteJoin(ts[1..], rs, source, destination)
  }

  /**
    The availability query: 400 when the source or the destination is missing
    or empty; otherwise every (train, row) pair of the join, in no particular
    order.
   */
  function FindTrains(ts: seq<Train>, rs: seq<SeatAvailability>, source: Option<string>, destination: Option<string>)
    : (r: Result<seq<(Train, SeatAvailability)>, HttpError>)
    ensures r.Failure? <==> source.None? || source.value == [] || destination.None? || destination.value == []
    ensures r.Failure? ==> r.error == SourceDestinationRequired
    ensures r.Success? ==> forall p :: p in r.value <==>
      p.0 in ts && p.1 in rs && OnRoute(p.0, p.1, source.value, destination.value)
  {
    if source.None? || source.value == [] || destination.None? || destination.value == [] then
      Failure(SourceDestinationRequired)
    else
      Success(RouteJoin(ts, rs, source.value, destination.value))
  }

  /**
    Under the invariant the query answers exactly the trains whose own route
    is the one asked for, each with its own availability row.
   */
  lemma FindTrainsByRoute(db: Db, source: string, destination: string)
    requires Consistent(db) && source != [] && destination != []
    ensures FindTrains(db.trains, db.seats, Some(source), Some(destination)).Success?
    ensures forall p :: p in FindTrains(db.trains, db.seats, Some(source), Some(destination)).value <==>
      exists i :: 0 <= i < |db.trains| && p == (db.trains[i], db.seats[i])
                  && db.trains[i].source == source && db.trains[i].destination == destination
  {
    var found := FindTrains(db.trains, db.seats, Some(source), Some(destination)).value;
    forall p | p in found
      ensures exists i :: 0 <= i < |db.trains| && p == (db.trains[i], db.seats[i])
                          && db.trains[i].source == source && db.trains[i].destination == destination
    {
      var j :| 0 <= j < |db.trains| && db.trains[j] == p.0;
      var i :| 0 <= i < |db.seats| && db.seats[i] == p.1;
      assert RowLedger(db.trains[i], db.seats[i], db.bookings);
      assert i == j;
    }
    forall i | 0 <= i < |db.trains| && db.trains[i].source == source && db.trains[i].destination == destination
      ensures (db.trains[i], db.seats[i]) in found
    {
      assert RowLedger(db.trains[i], db.seats[i], db.bookings);
      assert db.trains[i] in db.trains && db.seats[i] in db.seats;
    }
  }

  // ---------------------------------------------------------------------
  // GET /api/bookings/:id
  // ---------------------------------------------------------------------

  /**
    The booking lookup: a booking with the id asked for that belongs to the
    caller, joined with its train; otherwise 404. Only the caller's id takes
    part: there is no way to see another user's booking.
   */
  function GetBooking(bs: seq<Booking>, ts: seq<Train>, bookingId: Uuid, caller: AuthUser)
    : (r: Result<(Booking, Train), HttpError>)
    ensures r.Failure? ==> r.error == BookingNotFound
    ensures r.Success? ==>
      && r.value.0 in bs && r.value.0.id == bookingId && r.value.0.userId == caller.id
      && r.value.1 in ts && r.value.1.id == r.value.0.trainId
    ensures r.Failure? ==> forall b, t :: b in bs && t in ts && b.id == bookingId && b.userId == caller.id ==>
      t.id != b.trainId
  {
    if bs == [] then Failure(BookingNotFound)
    else
      var train := TrainById(ts, bs[0].trainId);
      if bs[0].id == bookingId && bs[0].userId == caller.id && train.Some? then
        Success((bs[0], train.value))
      else
        GetBooking(bs[1..], ts, bookingId, caller)
  }

  /**
    Under the invariant a booking is found exactly when it is the caller's,
    and then the booking found is that one.
   */
  lemma OnlyOwnerSeesBooking(db: Db, x: nat, caller: AuthUser)
    requires Consistent(db) && x < |db.bookings|
    ensures var r := GetBooking(db.bookings, db.trains, db.bookings[x].id, caller);
      && (r.Success? <==> db.bookings[x].userId == caller.id)
      && (r.Success? ==> r.value.0 == db.bookings[x])
  {
    var b := db.bookings[x];
    var r := GetBooking(db.bookings, db.trains, b.id, caller);
    assert b in db.bookings;
    if b.userId == caller.id {
      assert b.trainId in TrainIds(db.trains);
      var t :| t in db.trains && t.id == b.trainId;
      assert r.Success?;
    }
    if r.Success? {
      var y :| 0 <= y < |db.bookings| && db.bookings[y] == r.value.0;
      assert db.bookings[x].id == db.bookings[y].id;
      assert x == y;
    }
  }

  /** The lookup ignores the caller's role: an admin sees no more than anyone else. */
  lemma {:induction false} GetBookingIgnoresRole(bs: seq<Booking>, ts: seq<Train>, bookingId: Uuid, caller: AuthUser, role: string)
    ensures GetBooking(bs, ts, bookingId, caller) == GetBooking(bs, ts, bookingId, caller.(role := role))
  {
    if bs != [] {
      GetBookingIgnoresRole(bs[1..], ts, bookingId, caller, role);
    }
  }

  // ---------------------------------------------------------------------
  // A worked example
  // ---------------------------------------------------------------------

  /** An email check that accepts every address, for the example. */
  predicate AnyAddress(email: string) {
    true
  }

  /** Asha registers on empty tables and becomes user 1. */
  lemma AshaRegisters()
    ensures RegisterStep(EmptyDb, NewUser(None, "Asha", "asha@example.com", "secret1", None), AnyAddress, "hash")
      == Step(Success(PublicUser(1, "Asha", "asha@example.com", RoleUser)),
              EmptyDb.(users := [User(1, "Asha", "asha@example.com", "hash", RoleUser)], userSerial := 1))
  {
    var asha := NewUser(None, "Asha", "asha@example.com", "secret1", None);
    assert Utf16Length(asha.name) >= 4 && Utf16Length(asha.password) >= 7;
    assert InsertUserValid(asha, AnyAddress);
  }

  /** A train on the asked route with its own row is the whole answer of a one-train query. */
  lemma OneTrainQuery(t: Train, r: SeatAvailability, source: string, destination: string)
    requires OnRoute(t, r, source, destination)
    ensures RouteJoin([t], [r], source, destination) == [(t, r)]
  {
    assert [t][1..] == [] && [r][1..] == [];
    assert RouteRows(t, [r], source, destination) == [(t, r)];
  }

  /**
    Express 101 from Mumbai to Delhi with 100 seats: the availability query
    shows 100 free seats once the train is added and 99 after one booking,
    which holds seat 101.
   */
  lemma ExpressScenario()
    ensures
      var db1 := RegisterStep(EmptyDb, NewUser(None, "Asha", "asha@example.com", "secret1", None), AnyAddress, "hash").after;
      var db2 := AddTrainStep(db1, NewTrain(None, "Express 101", "Mumbai", "Delhi", 100)).after;
      var before := FindTrains(db2.trains, db2.seats, Some("Mumbai"), Some("Delhi"));
      var booked := ReserveStep(db2, AuthUser(1, RoleUser), 1, "b1");
      var after := FindTrains(booked.after.trains, booked.after.seats, Some("Mumbai"), Some("Delhi"));
      && before.Success? && |before.value| == 1 && before.value[0].1.availableSeats == 100
      && booked.response.Success? && booked.response.value.seatNumber == 101
      && after.Success? && |after.value| == 1 && after.value[0].1.availableSeats == 99
  {
    AshaRegisters();
    var db1 := EmptyDb.(users := [User(1, "Asha", "asha@example.com", "hash", RoleUser)], userSerial := 1);
    var t := Train(1, "Express 101", "Mumbai", "Delhi", 100);
    var row := SeatAvailability(1, 1, "Mumbai", "Delhi", 100);
    var db2 := db1.(trains := [t], seats := [row], trainSerial := 1, seatSerial := 1);
    assert AddTrainStep(db1, NewTrain(None, "Express 101", "Mumbai", "Delhi", 100)).after == db2;
    OneTrainQuery(t, row, "Mumbai", "Delhi");
    assert 1 in UserIds(db2.users);
    assert RowFor(db2.seats, 1) == Some(0);
    var row' := row.(availableSeats := 99);
    var b := Booking("b1", 1, 1, 101, StatusConfirmed);
    assert ReserveStep(db2, AuthUser(1, RoleUser), 1, "b1") == Step(Success(b), db2.(bookings := [b], seats := [row']));
    OneTrainQuery(t, row', "Mumbai", "Delhi");
  }

  // ---------------------------------------------------------------------
  // The database and the routes
  // ---------------------------------------------------------------------

  /** The service's database: the four tables and the three serial sequences. */
  class Database {
    var users: seq<User>
    var trains: seq<Train>
    var seats: seq<SeatAvailability>
    var bookings: seq<Booking>
    var userSerial: int
    var trainSerial: int
    var seatSerial: int

    ghost function State(): Db
      reads this
    {
      Db(users, trains, seats, bookings, userSerial, trainSerial, seatSerial)
    }

    ghost predicate Valid()
      reads this
    {
      Consistent(State())
    }

    constructor ()
      ensures Valid() && State() == EmptyDb
    {
      users, trains, seats, bookings := [], [], [], [];
      userSerial, trainSerial, seatSerial := 0, 0, 0;
    }

    /** The add-train handler, run after the admin gate and the body validator. */
    method AddTrain(body: NewTrain) returns (r: Result<Train, HttpError>)
      requires Valid()
      modifies this
      ensures Valid()
      ensures r == AddTrainStep(old(State()), body).response
      ensures State() == AddTrainStep(old(State()), body).after
    {
      ghost var step := AddTrainStep(State(), body);
      var id: int;
      if body.id.Some? {
        id := body.id.value;
      } else {
        trainSerial := trainSerial + 1;
        id := trainSerial;
      }
      if id in TrainIds(trains) {
        assert State() == step.after;
        assert Valid() by { AddTrainPreserves(old(State()), body); }
        return Failure(InternalServerError);
      }
      var train := Train(id, body.name, body.source, body.destination, body.totalSeats);
      trains := trains + [train];
      seatSerial := seatSerial + 1;
      seats := seats + [SeatAvailability(seatSerial, train.id, train.source, train.destination, train.totalSeats)];
      r := Success(train);
      assert State() == step.after;
      assert Valid() by { AddTrainPreserves(old(State()), body); }
    }

    /** The booking handler, run for the user the auth gate admitted. */
    method Reserve(caller: AuthUser, trainId: int, bookingId: Uuid) returns (r: Result<Booking, HttpError>)
      requires Valid()
      modifies this
      ensures Valid()
      ensures r == ReserveStep(old(State()), caller, trainId, bookingId).response
      ensures State() == ReserveStep(old(State()), caller, trainId, bookingId).after
    {
      var k := RowFor(seats, trainId);
      if k.None? || seats[k.value].availableSeats <= 0 {
        return Failure(NoSeatsAvailable);
      }
      if caller.id !in UserIds(users) || bookingId in BookingIds(bookings) {
        // the insert violates a key: the transaction rolls back
        return Failure(InternalServerError);
      }
      r := Book(caller, trainId, bookingId, k.value);
    }

    /** The transaction's insert and update, once the row has a free seat and the insert respects the keys. */
    method Book(caller: AuthUser, trainId: int, bookingId: Uuid, k: nat) returns (r: Result<Booking, HttpError>)
      requires Valid()
      requires RowFor(seats, trainId) == Some(k) && seats[k].availableSeats > 0
      requires caller.id in UserIds(users) && bookingId !in BookingIds(bookings)
      modifies this
      ensures Valid()
      ensures r == ReserveStep(old(State()), caller, trainId, bookingId).response
      ensures State() == ReserveStep(old(State()), caller, trainId, bookingId).after
    {
      ReserveStepBooks(State(), caller, trainId, bookingId, k);
      var availability := seats[k];
      var booking := BookingRow(bookingId, caller.id, trainId, availability.availableSeats + 1);
      bookings := bookings + [booking];
      seats := SetAvailableWhereId(seats, availability.id, availability.availableSeats - 1);
      assert seats == old(seats)[k := availability.(availableSeats := availability.availableSeats - 1)] by {
        UpdateWhereIdHitsOneRow(old(seats), k, availability.availableSeats - 1, trains);
      }
      r := Success(booking);
      assert Valid() by { ReservePreserves(old(State()), caller, trainId, bookingId); }
    }

    /** The register handler; `hashed` is the bcrypt hash of the body's password. */
    method Register(body: NewUser, isEmail: string -> bool, hashed: string) returns (r: Result<PublicUser, HttpError>)
      requires Valid()
      modifies this
      ensures Valid()
      ensures r == RegisterStep(old(State()), body, isEmail, hashed).response
      ensures State() == RegisterStep(old(State()), body, isEmail, hashed).after
    {
      ghost var step := RegisterStep(State(), body, isEmail, hashed);
      if !InsertUserValid(body, isEmail) {
        return Failure(ValidationFailed);
      }
      var id: int;
      if body.id.Some? {
        id := body.id.value;
      } else {
        userSerial := userSerial + 1;
        id := userSerial;
      }
      if id in UserIds(users) || body.email in Emails(users) {
        // unique violation, code 23505
        return Failure(EmailAlreadyExists);
      }
      var user := UserRow(body, id, hashed);
      users := users + [user];
      r := Success(WithoutPassword(user));
      assert State() == step.after;
      assert Valid() by { RegisterPreserves(old(State()), body, isEmail, hashed); }
    }
  }

  /** POST /api/admin/trains: the admin gate, then the add-train handler. */
  method PostTrain(db: Database, apiKey: Option<string>, configuredKey: Option<string>, body: NewTrain)
    returns (r: Result<Train, HttpError>)
    requires db.Valid()
    modifies db
    ensures db.Valid()
    ensures AdminGate(apiKey, configuredKey).Failure? ==>
      r == Failure(InvalidApiKey) && db.State() == old(db.State())
    ensures AdminGate(apiKey, configuredKey).Success? ==>
      && r == AddTrainStep(old(db.State()), body).response
      && db.State() == AddTrainStep(old(db.State()), body).after
  {
    var gate := AdminGate(apiKey, configuredKey);
    if gate.Failure? {
      return Failure(gate.error);
    }
    r := db.AddTrain(body);
  }

  /** POST /api/bookings: the auth gate, then the booking handler for the admitted user. */
  method PostBooking(db: Database, ctx: RequestContext, authorization: Option<string>,
                     verify: string -> Option<AuthUser>, trainId: int, bookingId: Uuid)
    returns (r: Result<Booking, HttpError>)
    requires db.Valid()
    modifies db, ctx
    ensures db.Valid()
    ensures Authenticate(authorization, verify).Failure? ==>
      r == Failure(Authenticate(authorization, verify).error) && db.State() == old(db.State())
    ensures Authenticate(authorization, verify).Success? ==>
      var caller := Authenticate(authorization, verify).value;
      && ctx.user == Some(caller)
      && r == ReserveStep(old(db.State()), caller, trainId, bookingId).response
      && db.State() == ReserveStep(old(db.State()), caller, trainId, bookingId).after
  {
    var auth := ctx.AuthMiddleware(authorization, verify);
    if auth.Failure? {
      return Failure(auth.error);
    }
    var caller := ctx.user.value;
    r := db.Reserve(caller, trainId, bookingId);
  }

  /** GET /api/bookings/:id: the auth gate, then the lookup for the admitted user. */
  method GetBookingById(db: Database, ctx: RequestContext, authorization: Option<string>,
                        verify: string -> Option<AuthUser>, bookingId: Uuid)
    returns (r: Result<(Booking, Train), HttpError>)
    modifies ctx
    ensures Authenticate(authorization, verify).Failure? ==>
      r == Failure(Authenticate(authorization, verify).error)
    ensures Authenticate(authorization, verify).Success? ==>
      var caller := Authenticate(authorization, verify).value;
      && ctx.user == Some(caller)
      && r == GetBooking(db.bookings, db.trains, bookingId, caller)
  {
    var auth := ctx.AuthMiddleware(authorization, verify);
    if auth.Failure? {
      return Failure(auth.error);
    }
    var caller := ctx.user.value;
    r := GetBooking(db.bookings, db.trains, bookingId, caller);
  }
}
