# Face-recognition attendance: the matching and dedup core

A model of the recognition-and-dedup core of a face-based attendance
application (a single Flask program, `attendance_app.py`). Enrolled students
are cached in memory as three parallel lists (encodings, ids, names). The live
video loop looks at each face in a frame. It takes the nearest cached encoding
(the first minimum-distance index) and accepts it only when it lies within the
0.6 tolerance. Then it records attendance for that student, at most once per
calendar day. Finally it draws each face's box, scaled back up by four, in green
when the label is a name and in red when it is "Unknown".

Modules, one per component:

- `Wrappers` (`wrappers.dfy`): the `Option` type.
- `Ledger` (`ledger.dfy`): the attendance table, a `seq<Record>` owned by the
  class `AttendanceLedger`. `Register` is the check-then-insert of
  `register_attendance`. It is specified by the function `Registered`, and the
  per-day rule, idempotence, cross-day and append-only lemmas are proved about
  that function.
- `Store` (`store.dfy`): the embedding cache, the class `EmbeddingStore`. Its
  three `seq` fields are replaced wholesale by `Reload`, which is
  `load_encodings`. `Reload` is specified by the function `Loaded`, and lemmas
  describe which rows `Loaded` keeps and in which order.
- `Matcher` (`matcher.dfy`): `np.argmin` (`ArgMin`, first occurrence of the
  minimum), `compare_faces` (`CompareFaces`) and the per-face decision
  (`Decide`).
- `Recognition` (`recognition.dfy`): the per-face loop of `generate_frames`
  (`ResolveFaces`, whose body for one face is `ResolveFace`), the drawing loop
  (`DrawFaces`) and the two together for one frame (`ProcessFrame`). Each is
  specified by functions of the cache, the probes and the clock readings. The
  decision for every face of a frame is computed once (`FaceIds`). The frame's
  ledger calls (`Sightings`) and matched positions (`MatchedFaces`) are read
  off that sequence.
- `Reporting` (`reporting.dfy`): the dashboard's attendance rate.

Inputs that stand in for what the program reads from outside:

- The clock. `register_attendance` reads `datetime.now(IST)` and formats the
  day (`%Y-%m-%d`) and the timestamp (`%Y-%m-%d %H:%M:%S`). Here these arrive as
  strings: `dateStr` and `timestamp` for one registration, and for a frame a
  `Stamp` per face, because each ledger call reads the clock anew.
- The student rows. The result of `SELECT id, name, embedding FROM students` is
  the `rows` argument of `Reload`.
- Deserialisation. `pickle.loads` is a given function `unpickle` from blobs to
  `Option<Encoding>`, where `None` stands for the exception that the loop
  catches.
- The face library. A frame's face encodings are the `probes` argument and its
  face locations the `locations` argument. `face_distance` is a given metric
  `distance` applied to every cached encoding (`Distances`). `compare_faces` is
  modelled as "distance ≤ tolerance" on those same distances. This is how the
  face library defines it, and it is an assumption about code that is not part
  of this model.

Behaviour of the code as written that the model keeps:

- The colour is chosen from the label, not from the match. A student enrolled
  under the name "Unknown" is registered when matched, but is drawn in the
  unrecognised colour.
- The drawing loop pairs locations with labels as Python's `zip` does. It
  stops at the shorter list.
- The lookup before the insert keys on (student id, date string) only. The
  table itself does not enforce the rule. `Register` keeps it (`Unique`) when it
  already held, and a table that violates it stays violated.

## Model

| member | source | states |
|---|---|---|
| `Ledger.AttendanceLedger.constructor` | attendance_app.py:39-46 | the table at start-up holds exactly the rows persisted by earlier runs (none on the first run), since `CREATE TABLE IF NOT EXISTS` keeps an existing table |
| `Ledger.AttendanceLedger.Lookup` | attendance_app.py:107-108 | the lookup finds a row exactly when some record has that student id and that date string |
| `Ledger.AttendanceLedger.Register` | attendance_app.py:95-115 | a row is inserted exactly when the lookup found none; the new table is `Registered(old table, ...)`; the per-day rule is preserved |
| `Ledger.RegisteredEffect` | attendance_app.py:107-112 | with a record already present for that student and day the table is unchanged; otherwise exactly one record with that id, day and timestamp is appended; afterwards the lookup succeeds; the old table is a prefix of the new one |
| `Ledger.HasRecordExtends` | attendance_app.py:107-108 | a record that the lookup finds is still found after rows are appended |
| `Ledger.OthersUnchanged` | attendance_app.py:110-111 | a registration leaves every other student's records exactly as they were |
| `Ledger.RegisteredKeepsUnique` | attendance_app.py:105-111 | if no two records shared a (student, day) pair before a registration, none do after it |
| `Ledger.SameDayIdempotent` | attendance_app.py:105-111 | a second registration of a student on the same day changes nothing; the pair then has exactly one record when the pair had none before or the per-day rule held |
| `Ledger.DifferentDaysTwoRecords` | attendance_app.py:105-111 | two registrations of a student on two different days with no prior record append two records, one per day, in call order; the student then has two more records |
| `Ledger.PairCountZero` | attendance_app.py:107-110 | the number of records for a (student, day) pair is zero exactly when the lookup finds none |
| `Ledger.UniqueAtMostOne` | attendance_app.py:105-106 | under the per-day rule every (student, day) pair has at most one record |
| `Store.EmbeddingStore.constructor` | attendance_app.py:58-60 | the cache starts as three empty lists |
| `Store.EmbeddingStore.Reload` | attendance_app.py:62-86 | afterwards the three lists have equal length and, read index by index, are exactly `Loaded(rows)`, whatever they held before |
| `Store.LoadedFromRows` | attendance_app.py:75-83 | profile k comes from one row (its id, its name and its deserialised blob); those rows are in strictly increasing order; a row is among them exactly when its blob deserialises |
| `Store.LoadedCount` | attendance_app.py:75-86 | the number of profiles loaded, which the closing message reports, equals the number of rows whose blob deserialises |
| `Store.CorruptRowSkipped` | attendance_app.py:77-83 | a row whose blob does not deserialise, inserted at any position, changes nothing in what is loaded |
| `Store.AllDecodableAllLoaded` | attendance_app.py:75-81 | when every blob deserialises, one profile is loaded per row |
| `Store.LoadedAppend` | attendance_app.py:75-83 | loading two runs of rows one after the other yields the two loads concatenated: each row is handled on its own |
| `Matcher.ArgMin` | attendance_app.py:156 | the result is an index of a minimum distance, and no earlier index has that distance |
| `Matcher.DecideSpec` | attendance_app.py:148-157 | no known encodings gives no match; there is a match exactly when some distance is within 0.6; a match is at the first minimum-distance index, which is within 0.6; and every first minimum within 0.6 is matched |
| `Recognition.MatchOf` | attendance_app.py:153-157 | a matched index is a valid index into the cache |
| `Recognition.FaceSpec` | attendance_app.py:146-164 | an empty cache labels the face "Unknown" and registers no one; a face is matched exactly when some cached encoding is within the tolerance; the label and the registered id then both come from the first minimum-distance index; an unmatched face is labelled "Unknown" |
| `Recognition.EmptyCacheNoAttendance` | attendance_app.py:149-164 | with no cached students every face in a frame is labelled "Unknown" and the ledger is not called |
| `Recognition.CallsInOrder` | attendance_app.py:146-162 | for any run of per-face decisions: one ledger call per matched position, in position order, with that face's id and clock reading; the positions increase strictly and are exactly the matched ones |
| `Recognition.SightingsAreMatchedFaces` | attendance_app.py:157-162 | every ledger call of a frame carries the id and clock reading of some matched face; every matched face's id and clock reading is among the calls; there are no more calls than faces |
| `Recognition.SightingsInFaceOrder` | attendance_app.py:146-162 | exactly one ledger call per matched face, in face order: call k carries the id and clock reading of the k-th matched face; the matched positions increase strictly; a face is among them exactly when it is matched |
| `Recognition.RegisterAllConcat` | attendance_app.py:146-162 | registering one run of ledger calls and then another gives the same table as registering both runs in one go |
| `Recognition.RegisterAllAppends` | attendance_app.py:111 | the ledger calls of a frame only append to the table, at most one row per call |
| `Recognition.RegisterAllKeepsUnique` | attendance_app.py:105-111 | the ledger calls of a frame keep the per-day rule |
| `Recognition.RegisterAllRecordsSightings` | attendance_app.py:107-111 | after a frame's ledger calls, every sighted student has a record on the day of the sighting, and every new row is one of the sightings |
| `Recognition.ResolveFace` | attendance_app.py:147-164 | one face: the label is the name at the first minimum-distance index when `compare_faces` flags it, and "Unknown" otherwise; the table gets exactly that face's ledger call (none when unmatched) |
| `Recognition.ResolveFaces` | attendance_app.py:144-164 | the labels are `FrameLabels`, one per face in face order; the table afterwards is the old table with the frame's `Sightings` registered one by one |
| `Recognition.DrawFaces` | attendance_app.py:167-181 | one overlay per pair of `zip(locations, labels)`; each box coordinate is four times the detected one; the band runs from 35 pixels above the box's bottom to its bottom; the text sits 6 pixels inside the box's left and bottom edges; the colour is the recognised one exactly when the label is not "Unknown" |
| `Recognition.ProcessFrame` | attendance_app.py:144-181 | one frame: the table gets the frame's sightings, and each drawn overlay carries the face's label, the scaled box and the colour its label selects |
| `Reporting.AttendanceRate` | attendance_app.py:1042-1045 | the rate is 0 when no student is enrolled; otherwise it is attendance × 100 / total; it lies between 0 and 100 when the attendance does not exceed the total |

## Left out

- Flask routes, templates, `flash`/`redirect` and the HTML/CSS/JS strings: web plumbing.
- The enrolment route (`register`) and its `INSERT` into `students`. Its only effect on the core is to call `load_encodings`, which is `Reload`.
- SQLite connections, the schema DDL (its only effect on the core, keeping or creating the attendance table, is `Ledger.AttendanceLedger.constructor`), the joined log query and `COUNT(...)` queries: the tables are modelled as sequences and the counts as inputs to `AttendanceRate`.
- Camera capture, resizing, colour conversion, rectangle and text drawing, JPEG encoding and the MJPEG framing. The outer `while True` loop over camera frames is camera I/O, so the model covers one frame at a time.
- Face detection, face encoding, the distance metric and `np.argmin` over floating point: `distance` is a given function into `real`. NaN distances and float rounding are not modelled.
- `pickle.loads`: a given function. The error message printed for a skipped row and the "Loaded N" message are not modelled.
- `datetime.now(IST)` and `strftime`: the day and timestamp strings are inputs. The `time_str` used only in a log message is not modelled.
- `Reporting.AttendanceRate`: does not model `round(..., 1)` of the float percentage. It returns the exact quotient.
- CSV export: library serialisation.
- `threaded=True`: the model is single-threaded, so it does not show the check-then-insert race between concurrent callers or a reload racing a frame.
- Storage failures: `register_attendance` catches no exception, so an error from SQLite there ends the video stream instead of being logged and skipped. The model has no storage failures, so this path is not modelled.
