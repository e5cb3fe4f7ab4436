# Railway booking service: a verified model

This project models the core of a small train-booking HTTP service. It covers five things.

- Admins add trains. Each new train gets one seat-availability row with every seat free.
- Anyone can query the trains running between a source and a destination.
- Users register.
- An authenticated user reserves a seat. This inserts a booking and lowers the row's free-seat count, in one transaction.
- A user looks up one of their own bookings.

Booking requests, to reserve or to look up, pass the `Bearer` token gate (section 2.1 of RFC 6750, matched case-sensitively). Adding a train passes the admin API-key gate. Registering and the availability query pass neither.

Files:

- `schema.dfy` (module `Schema`): the four tables' record shapes and their column defaults. It states their key, uniqueness and foreign-key constraints as predicates, and includes the user-insert validator.
- `auth.dfy` (module `Auth`): the two gates.
  - Token extraction is written out in full, including JavaScript's `split(' ')`.
  - The context object that receives the authenticated user is a class.
- `railway.dfy` (module `Railway`): the handlers.
  - Add-train, reserve and register are each specified by a step function on a snapshot `Db` of the tables and serial sequences. A step function gives the response and the tables left behind.
  - Class `Database` holds the tables as fields and runs the same handlers statement by statement. Its methods are proved to follow the step functions and to keep `Consistent`.
  - `Consistent` is the invariant: it combines the schema constraints with a per-train seat ledger.
  - The read-only handlers, the availability join and the booking lookup, are functions.
- `wrappers.dfy`, `http.dfy`: `Option`/`Result` and the HTTP error value.

The seat ledger of a train (`RowLedger`) says the following:

- the train's availability row copies the train's route;
- `availableSeats` never exceeds `totalSeats`;
- the seat numbers of the bookings on the train, in booking order, count down from `totalSeats + 1`, one per seat taken.

Along any sequence of requests (`Run`), this gives three results:

- the count of bookings equals `totalSeats - availableSeats`;
- for a train with `totalSeats >= 0`, the count stays within `0..totalSeats`;
- seat numbers are pairwise distinct and strictly decreasing, from `totalSeats + 1` down to `availableSeats + 2`.

The seat arithmetic is kept exactly as written, off-by-one included (see Findings). So is the missing lower bound on `totalSeats`. The train validator accepts a negative capacity, and the train's row then starts with a negative free-seat count and refuses every booking (see Findings).

The user validator counts the lengths of the name and the password in UTF-16 code units, as JavaScript does (`Utf16Length`). A character above U+FFFF counts twice, so a name made of one emoji passes the two-character minimum.

A request body may carry an explicit `id` for a user or a train. The insert validators keep the serial key optional, and the handlers insert the raw body. The model follows this:

- the serial sequence is drawn only when no id is given;
- a key that is already taken is a unique violation.

An admin gets no bypass: the lookup in `src/index.ts:177-187` filters on the caller's id alone, and `GetBookingIgnoresRole` proves that the role plays no part.

## Model

| member | source | states |
|---|---|---|
| Schema.UserRow | src/db/schema.ts:28 | a stored user always has a known role: `user` when the body gives none, otherwise the validated role it gives |
| Schema.BookingRow | src/db/schema.ts:52 | a new booking's status is `confirmed` |
| Schema.Utf16Length | src/db/schema.ts:78-79 | a string's JavaScript length lies between its number of characters and twice that |
| Schema.OneEmojiNameIsLongEnough | src/db/schema.ts:78-79 | a one-emoji name is one character but two code units long, so a body with it and a six-character password passes the validator |
| Schema.InsertUserValid | src/db/schema.ts:76-81 | a body it accepts has an email the email check accepts, a password of at least 3 and a name of at least 1 characters (6 and 2 code units), and no role or one of `admin` and `user`; every body with such an email, a 6-character password, a 2-character name and no role or a known one is accepted |
| Schema.WithoutPassword | src/index.ts:66 | the register response carries the stored user's id, name, email and role, and no password |
| Schema.UsersTableAppend | src/db/schema.ts:24-26 | inserting a user whose id and email are both new keeps ids and emails unique, and adds exactly that id to the id set |
| Schema.TrainsTableAppend | src/db/schema.ts:35 | inserting a train with a new id keeps train ids unique, and adds exactly that id |
| Schema.SeatsTableAppend | src/db/schema.ts:58-59 | inserting a row with a new id that references the new train keeps row ids unique and every row's train reference valid |
| Schema.BookingsTableAppend | src/db/schema.ts:48-50 | inserting a booking with a new id, an existing user and an existing train keeps the bookings' key and foreign keys |
| Schema.BookingsTableWiden | src/db/schema.ts:49-50 | growing the users or trains tables keeps every booking's references valid |
| Auth.StartsWith | src/middleware/auth.ts:8 | a header passes the prefix test exactly when it is at least as long as the prefix and agrees with it character by character, case included; it is then the prefix followed by the rest |
| Auth.Split | src/middleware/auth.ts:12 | splitting on a separator yields at least one field, and no field contains the separator |
| Auth.JoinSplit | src/middleware/auth.ts:12 | joining the fields of a split with the separator gives back the original string |
| Auth.SplitJoin | src/middleware/auth.ts:12 | splitting a join of separator-free fields gives back those fields |
| Auth.SplitWord | src/middleware/auth.ts:12 | a word without the separator splits into that one word |
| Auth.SplitAfterWord | src/middleware/auth.ts:12 | a word, the separator, then a rest: the word is field 0 and the rest's first field is field 1 |
| Auth.BearerToken | src/middleware/auth.ts:12 | a header that starts with `Bearer ` always has a second field, the token |
| Auth.TokenAfterPrefix | src/middleware/auth.ts:8-12 | the token of `Bearer ` + rest is the rest up to its first space, and it contains no space |
| Auth.TokenOfBearer | src/middleware/auth.ts:8-12 | for a space-free token `t`, the header `Bearer t` yields `t`; for example `Bearer abc` yields `abc` |
| Auth.Authenticate | src/middleware/auth.ts:5-20 | 401 `Unauthorized` exactly when the header is missing, empty or lacks the `Bearer ` prefix; 401 `Invalid token` exactly when it has the prefix but verification rejects the token; admitted exactly when it has the prefix and the token verifies, and then the user is the one verification decoded |
| Auth.RequestContext.AuthMiddleware | src/middleware/auth.ts:5-21 | answers as `Authenticate`; on success it stores the decoded user in the context, and on failure it leaves the context unchanged |
| Auth.AdminGate | src/middleware/auth.ts:23-28 | admits exactly when the `X-API-Key` header is present, non-empty and equal to the configured key; otherwise 401 `Invalid API key` |
| Auth.AdminLockedWithoutKey | src/middleware/auth.ts:26-28 | with no configured key, or an empty one, every admin request is refused with 401 `Invalid API key` |
| Railway.AddTrainKeepsLedgers | src/index.ts:98-105 | a train with no bookings plus a row that copies its route with every seat free keeps every train's seat ledger |
| Railway.ReserveKeepsLedgers | src/index.ts:152-161 | a booking holding seat `availableSeats + 1`, with the row's count lowered by one, keeps every train's seat ledger |
| Railway.RowFor | src/index.ts:142-146 | the row found belongs to the train asked for; when none is found, no row belongs to it |
| Railway.RowForTrain | src/index.ts:142-146 | under the invariant a row is found exactly when the train exists, and it is that train's own row |
| Railway.SetAvailableWhereId | src/index.ts:158-161 | the update sets the count of the rows with that id and leaves every other row as it was |
| Railway.UpdateWhereIdHitsOneRow | src/index.ts:158-161 | since row ids are unique, updating by the id of the row that was read changes that row alone |
| Railway.TrainById | src/index.ts:186 | the train found has the id asked for; when none is found, no train has it |
| Railway.AddTrainStep | src/index.ts:94-111 | the train serial is drawn exactly when the body has no id; fails with 500, tables and row serial unchanged, exactly when the given or drawn id is taken; otherwise appends the train with that id and the body's fields, plus one row with a fresh serial id, the train's id and route, and `availableSeats == totalSeats`; users and bookings unchanged |
| Railway.AddTrainPreserves | src/index.ts:98-105 | adding a train keeps `Consistent`; the new row's id is fresh and no booking refers to the new train |
| Railway.ReserveStep | src/index.ts:136-170 | `No seats available`, nothing changed, exactly when the train has no row or its count is `<= 0`; 500, nothing changed, exactly when the insert violates a key; succeeds exactly when the row has a free seat, the caller is a user and the booking id is new, and then appends one confirmed booking for the caller and train, with seat `count + 1`, lowers that row's count by one, and leaves every other row and table unchanged |
| Railway.ReservePreserves | src/index.ts:141-164 | a reservation keeps `Consistent`, including every seat ledger |
| Railway.RegisterStep | src/index.ts:52-74 | 400 exactly when validation fails; the user serial is drawn exactly when a valid body has no id; a repeated email, or a taken id, is refused with `Email already exists`, users unchanged; succeeds exactly when the body is valid, its email is new and the body's id (or else the next serial value) is unused, and then appends exactly one user with that id, the body's name and email, the hashed password and the body's role, or `user` when it gives none, and the response is that user without the password |
| Railway.RegisterPreserves | src/index.ts:59-71 | registering keeps `Consistent`, so emails stay unique |
| Railway.RunPreservesConsistency | src/index.ts:52-170 | every sequence of add-train, reserve and register requests keeps `Consistent` |
| Railway.SeatLedger | src/index.ts:148-160 | under the invariant a train's row is its own; the bookings on the train number `totalSeats - availableSeats`; for a train with `totalSeats >= 0` the count lies in `0..totalSeats`; the seats issued, in order, are `totalSeats + 1, totalSeats, ...`, strictly decreasing and above `availableSeats + 1` |
| Railway.LedgerAlongAnyRun | src/index.ts:98-161 | after any sequence of requests from empty tables, every train's row is its own, its bookings number `totalSeats - availableSeats`, and, for a train with `totalSeats >= 0`, its count lies in `0..totalSeats` |
| Railway.BookingSeatNumbers | src/index.ts:155-160 | every booking on a train holds a seat in `availableSeats + 2 .. totalSeats + 1`; of two bookings on one train, the later holds the smaller seat, so no two share a seat |
| Railway.BookingSeat | src/index.ts:155 | a booking's seat is `totalSeats + 1` minus the number of earlier bookings on its train |
| Railway.OneSeatTrainGetsSeatTwo | src/index.ts:155 | the first booking on a new one-seat train succeeds and is given seat 2, beyond the train's capacity |
| Railway.NegativeCapacityTrain | src/index.ts:98-105 | a train added with a negative `totalSeats` gets a row whose free-seat count is that negative number, and every reservation on it answers `No seats available` |
| Railway.AddTrainKeepsCounts | src/index.ts:100-105 | adding a train with `totalSeats >= 0` keeps every free-seat count non-negative |
| Railway.ReserveKeepsCounts | src/index.ts:148-161 | a reservation keeps every free-seat count non-negative, since it lowers only a count above zero |
| Railway.CheckedRunKeepsCounts | src/index.ts:94-170 | with an add-train that refuses a negative capacity, every sequence of requests keeps `Consistent` and every count non-negative |
| Railway.CheckedCountsInRange | src/index.ts:98-161 | with an add-train that refuses a negative capacity, after any sequence of requests from empty tables every train's free-seat count lies in `0..totalSeats` |
| Railway.CorrectedSeatsFitCapacity | src/index.ts:155 | numbering seats by `totalSeats - availableSeats + 1` gives the bookings on a train the seats `1, 2, ...`, all in `1..totalSeats` |
| Railway.RouteRows | src/index.ts:124-130 | the pairs of one train with exactly those rows that are its own and on the route asked for |
| Railway.RouteJoin | src/index.ts:121-131 | a pair is in the join exactly when its train and row are in the tables, the row is the train's, and the row's source and destination equal those asked for |
| Railway.FindTrains | src/index.ts:113-134 | 400 `Source and destination are required` exactly when either is missing or empty; otherwise exactly the pairs of the join |
| Railway.FindTrainsByRoute | src/index.ts:117-131 | under the invariant the query answers exactly the trains on that route, each paired with its own row |
| Railway.GetBooking | src/index.ts:177-191 | a found booking has the id asked for, belongs to the caller and comes with its own train; 404 `Booking not found` only when no such booking has a train |
| Railway.OnlyOwnerSeesBooking | src/index.ts:177-191 | under the invariant an existing booking is found exactly when it belongs to the caller, and then it is that booking |
| Railway.GetBookingIgnoresRole | src/index.ts:180-185 | the lookup's answer does not depend on the caller's role, so an admin gets no bypass |
| Railway.AshaRegisters | src/index.ts:52-67 | a valid body with no id, registered on empty tables, becomes user 1 with the default role and the hashed password, and the response omits the password |
| Railway.OneTrainQuery | src/index.ts:121-131 | a train with its own row on the asked route is the whole answer of a query over that one train |
| Railway.ExpressScenario | src/index.ts:94-170 | after one user registers and a 100-seat Mumbai to Delhi train is added, the query shows 100 free seats; a booking then gets seat 101, and afterwards the query shows 99 |
| Railway.Database.constructor | src/db/schema.ts:23-65 | the tables start empty and consistent |
| Railway.Database.AddTrain | src/index.ts:94-111 | performs the insertions step by step, ends in the state `AddTrainStep` gives and keeps `Consistent` |
| Railway.Database.Reserve | src/index.ts:136-170 | looks up the row and answers its two refusals, then books through `Book`; ends in the state `ReserveStep` gives and keeps `Consistent` |
| Railway.Database.Book | src/index.ts:152-161 | once the row has a free seat and the insert respects the keys, inserts the booking and updates the row by its id, ends in the state `ReserveStep` gives and keeps `Consistent` |
| Railway.Database.Register | src/index.ts:52-74 | validates and inserts step by step, ends in the state `RegisterStep` gives and keeps `Consistent` |
| Railway.PostTrain | src/index.ts:94 | a refused API key answers 401 and changes nothing; an admitted one runs the add-train handler |
| Railway.PostBooking | src/index.ts:136 | a refused token answers the gate's 401 and changes no table; an admitted one stores the user in the context and reserves for that user |
| Railway.GetBookingById | src/index.ts:172-194 | a refused token answers the gate's 401; an admitted one stores the user in the context and looks up the booking for that user |

## Left out

- Concurrency and transaction isolation: each handler is one atomic step. The reservation's read-then-write without a row lock is not modelled, so neither is any race between reservations.
- The row lookup in reserve uses `limit(1)` with no ordering. The model takes the first matching row. Under the invariant there is exactly one such row.
- bcrypt hashing is the parameter `hashed`. JWT verification is the uninterpreted parameter `verify`. JWT signing and the login route are not modelled: they only compare a hash and sign a token.
- Email syntax, `z.string().email()`, is the parameter `isEmail`.
- The request validator's list of issues is not modelled; its rejection is one value, `ValidationFailed`.
- The add-train body's other fields are not modelled. Its validator also requires `departureTime` and `arrivalTime`, but timestamps and the `createdAt`/`updatedAt` columns play no part in any logic.
- Request bodies are typed. A JSON value of the wrong type, such as a string `trainId` or a malformed booking UUID, is a database error in the service and is not modelled.
- PostBooking: the model reserves under the caller the token decoded. Whether a handler error thrown inside the auth gate's `next()` becomes 401 depends on the web framework's error composition, which is not part of this model.
- Database column widths: the `integer` columns are 32-bit in the database, while the model's integers are unbounded. Overflow of `availableSeats + 1` or of a serial is not modelled.
- Row order of the availability query: SQL gives none, so FindTrains is specified by membership alone.
- Booking UUIDs come from the database's random generator. Here they are a parameter, and a repeated one is the key violation it would be.
- Routing, CORS, logging, tracing and the database connection are not modelled.
- The seeding script is not part of this model. It inserts trains without availability rows.

## Findings

| source | as written | input that shows it | evidently intended | confidence | as-written member | corrected member |
|---|---|---|---|---|---|---|
| src/index.ts:155 | the seat number is the free-seat count before the booking plus one, so a train's seats are numbered `totalSeats + 1` down to `2` | add a train with `totalSeats = 1`, then reserve on it: the booking gets seat 2 | seats numbered within `1..totalSeats`, for instance `totalSeats - availableSeats + 1` | high; not executed | Railway.OneSeatTrainGetsSeatTwo | Railway.CorrectedSeatsFitCapacity |
| src/db/schema.ts:83 | the train validator sets no lower bound on `totalSeats`, and add-train copies it into the row's `availableSeats` | add a train with `totalSeats = -5`: its row holds `availableSeats = -5`, and every reservation on it answers `No seats available` | a capacity below zero refused, so that every free-seat count stays in `0..totalSeats` | medium; not executed | Railway.NegativeCapacityTrain | Railway.CheckedCountsInRange |

The handlers and the database keep the code as written, so the ledger lemmas describe the service as it behaves. `CorrectedSeatNumber` is the intended numbering. `CorrectedSeatsFitCapacity` proves that, on every consistent state, this numbering gives the bookings on a train the seats `1, 2, ...` in order, within capacity. `CheckedAddTrainStep` is add-train with a capacity below zero refused as a validation error. `CheckedRunKeepsCounts` and `CheckedCountsInRange` prove that with it, every free-seat count stays within `0..totalSeats` along any sequence of requests.
