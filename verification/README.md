# Appointment slot allocation, modelled in Dafny

This project models the slot-allocation core of a clinic booking back end, where doctors and patients are served over a REST API. Each doctor document holds a weekly `availability` grid. The grid is a list of day entries, and each entry has an optional list of time slots. Patients book a slot by its `(start_time, end_time)` pair. Booking marks the slot as taken and writes an appointment document under a fresh booking id. Cancelling frees the slot again and marks the appointment cancelled.

The model covers these parts:

- Five request handlers of the doctors' API that read or change the grid: booking, cancellation, the per-day availability query, the online/offline switch and the availability upload. Other writers of the grid exist and are listed under "## Left out".
- The request validators they rely on: time slots, day entries, whole availability uploads and booking requests.
- The account validators that sit beside them: registration and login, for doctors and for patients.

The two document collections, doctors and appointments, are modelled as a pair of maps. Each handler is a pure function. It returns its response together with both collections as it leaves them. The fresh `uuid4()` booking id is a parameter. The framework's e-mail address validator is also a parameter, `accepts`.

Modules, in dependency order:

- `Outcomes`: `Option` and `Result`.
- `Text`: character classes, Python's `str.strip()` (`Trim`), `str.lower()` (`Lower`), and the `^…$` anchoring of `re.match`.
- `Seqs`: first and last index, and the `len(xs) == len(set(xs))` test.
- `TimeFormat`: the `HH:MM` pattern. It is written once as character classes and once, independently, as the set of 24-hour clock readings.
- `EmailFormat`: the registration e-mail pattern. It is written once as a scan for the `@` and the last dot, and once as a `local@domain.tld` split.
- `Fields`: the framework's default field semantics:
  - a character field is stripped;
  - a blank value is refused unless allowed;
  - length limits and the no-NUL rule are checked on the stripped value;
  - a choice field is compared without stripping;
  - a Boolean field takes its default when missing;
  - a nested list is refused when any one element is.
- `DoctorSerializers`, `PatientSerializers`, `Accounts`: the serializers.
- `SlotGrid`: the grid, `Claim` (what booking does to it) and `Release` (what cancelling does to it).
- `Clinic`: the handlers.
- `GridLaws` and `BookingLaws`: how claim and release undo each other, and which properties each handler preserves. The central invariant is `BookingLaws.Consistent`: every confirmed appointment is recorded by exactly one slot of its doctor's grid. That slot is on the appointment's day, has its times, is marked unavailable, and holds its patient and booking id.
- `Scenarios`: concrete cases for behaviour a reader might not expect.

The model follows the code, including these points where its behaviour may not be what a reader expects:

- **The day flag.** Booking never reads a day entry's own `is_available` flag; only the slot's flag decides (`Scenarios.ClosedDayBookable`). A day marked unavailable does not refuse its slots.
- **The "day not configured" case.** It is not answered as a conflict. The code answers 400 "no availability set". In the model this is `NoAvailabilityForDay` with status 400.
- **Atomicity.** Claiming a slot and writing the appointment are two independent writes. There is no compensation step and no per-doctor locking.
- **The hour format.** The time pattern accepts a one-digit hour (`9:00`) as well as the zero-padded `09:00`. The pattern never compares a slot's start time with its end time (`Scenarios.BackwardsSlotAccepted`).
- **Cancellation's loop.** The outer loop over day entries in cancellation has no `break`. Every entry for the appointment's day is visited, not only the first.
- **Defaults of the day flag.** The availability query reads a day entry without the flag as unavailable. The serializer fills a missing flag in as available.
- **The availability upload.** It replaces the whole grid, booked slots included. It can therefore leave a confirmed appointment with no slot behind it (`Scenarios.UploadOrphansAppointment`).

## Model

| member | source | states |
|---|---|---|
| `Clinic.Book` | backend/doctors/views.py:385-390 | A request the booking serializer refuses is answered with exactly the serializer's error map and changes nothing. A request it accepts is handled as `BookValidated` handles the validated data. |
| `Clinic.BookValidated` | backend/doctors/views.py:392-476 | Each refusal happens exactly when its condition holds, checked in the handler's order: no doctor document; the doctor is inactive (a missing flag counts as active); no entry for the day; no slot with both times in the first entry for the day; that slot's own flag says taken. Every refusal leaves both collections unchanged. A success changes only that doctor's grid, to the claimed grid. It adds exactly one appointment, under the new id, carrying the request's patient data, day, times and reason (empty when absent), with status confirmed. The appointment's doctor name is the doctor's first name, a space and the last name. When the doctor is bookable and the claim succeeds, the error response comes exactly when the doctor document lacks a first or last name; it comes after the grid was written, with no appointment stored. |
| `Clinic.NewAppointment` | backend/doctors/views.py:444-457 | The stored appointment carries the booking id, the doctor's uid, the doctor's first and last name joined by a space, the patient's name, e-mail and phone, the day and times as requested, the reason or an empty one, and status confirmed. |
| `Clinic.BookStatus` | backend/doctors/views.py:396-476 | Status 201 exactly for a booking. Status 400 exactly for a request the serializer refuses, an offline doctor, a day without an entry, or a slot already taken. Status 404 exactly for an unknown doctor or slot, and 500 exactly for the missing-name failure. |
| `SlotGrid.Claim` | backend/doctors/views.py:406-437 | The claim is refused for a missing day entry, a missing slot, or a slot already taken, each exactly when that is the first test to fail. On success the free slot found is replaced by its taken form and every other entry and slot is unchanged. |
| `SlotGrid.FindDay` | backend/doctors/views.py:408-412 | The result is the first entry whose day equals the request; it is absent exactly when no entry has that day. |
| `SlotGrid.FindSlot` | backend/doctors/views.py:420-425 | The result is the first slot whose start and end times both equal the request; it is absent exactly when none does. |
| `SlotGrid.Taken` | backend/doctors/views.py:435-437 | A taken slot keeps its times, is explicitly marked unavailable, and records the patient's e-mail and the booking id. |
| `GridLaws.ClaimedSlotIsBooked` | backend/doctors/views.py:430-431 | Once a slot has been claimed, any further claim for the same day and times is refused as already booked, whoever asks. |
| `GridLaws.SameDays` | backend/doctors/views.py:408-412 | The day search depends only on the entries' day names, so a grid edited inside its slots finds the same entry. |
| `GridLaws.SameFirstSlot` | backend/doctors/views.py:422-425 | A slot with the requested times and none before it is the one the slot search finds. |
| `Clinic.Cancel` | backend/doctors/views.py:483-527 | An unknown booking id is refused and changes nothing. Otherwise the appointment is marked cancelled, whatever its previous status, and no other appointment changes. If its doctor still exists, that doctor's grid is replaced by the released grid. No other doctor changes and no doctor is added. |
| `Clinic.CancelStatus` | backend/doctors/views.py:488-524 | Status 404 exactly for an unknown id, and 200 exactly for a cancellation. |
| `Clinic.Released` | backend/doctors/views.py:496-514 | The doctor keeps its name and active flag. Its availability is always written back, as the release of its grid for the appointment's day, times and id, even when the document had none before (its grid then counts as empty). |
| `SlotGrid.Release` | backend/doctors/views.py:500-509 | Every day entry, not just the first for the day, goes through the release; the grid keeps its length. |
| `SlotGrid.ReleaseEntry` | backend/doctors/views.py:500-502 | An entry for another day, or one without a slot list, is left as it is. An entry for the day keeps its name and flag, and its slots are released. |
| `SlotGrid.ReleaseSlots` | backend/doctors/views.py:502-509 | Only the first slot held by the booking id with the appointment's times is freed. Every other slot stays as it was, including every slot of a list with no such slot. |
| `SlotGrid.Freed` | backend/doctors/views.py:506-508 | A freed slot keeps its times, is explicitly marked available, and records neither a patient nor a booking id. |
| `GridLaws.ReleasedSlot` | backend/doctors/views.py:500-509 | Slot by slot, a release changes exactly the first slot of an entry for the day that is held by the id with the given times, and it frees that slot. |
| `GridLaws.ReleaseWithoutHolder` | backend/doctors/views.py:503-505 | Releasing an id that holds no slot leaves the grid identical. |
| `GridLaws.KeepsOtherHolders` | backend/doctors/views.py:503-508 | A release never frees or moves a slot held by a different booking id. |
| `GridLaws.ReleasedHolder` | backend/doctors/views.py:500-509 | After a release the id still holds a slot only where it already held one and the release did not reach: another day, other times, or behind an earlier match in the same entry. |
| `GridLaws.ReleaseSoleHolder` | backend/doctors/views.py:500-514 | When the id holds exactly one slot, on the given day and times, releasing it frees that slot and changes nothing else in the grid. |
| `GridLaws.ReleaseLeavesNoHolder` | backend/doctors/views.py:503-509 | Under the same conditions, no slot is held by the id afterwards. |
| `GridLaws.ReleaseEntryUntouched` | backend/doctors/views.py:501-509 | An entry in which the id holds no slot is not changed by the release. |
| `GridLaws.ClaimThenRelease` | backend/doctors/views.py:433-437 | Claiming with a fresh id and then releasing that id gives back the original grid, except that the claimed slot returns in its freed form. A slot that was pristine (free, no patient, no id) returns identical, so the whole grid is restored. |
| `BookingLaws.ClaimMakesSoleHolder` | backend/doctors/views.py:433-437 | A successful claim with a fresh id makes that id the holder of exactly one slot: the claimed one, in the entry for the requested day. |
| `BookingLaws.ClaimKeepsBacking` | backend/doctors/views.py:430-437 | Claiming never disturbs a slot that records another appointment. |
| `BookingLaws.ReleaseKeepsBacking` | backend/doctors/views.py:500-509 | Releasing one id never disturbs a slot that records another appointment. |
| `BookingLaws.BookKeepsConsistent` | backend/doctors/views.py:385-476 | If every confirmed appointment is recorded by exactly one slot of its doctor's grid, booking with a fresh id keeps that true, whatever the outcome. |
| `BookingLaws.CancelKeepsConsistent` | backend/doctors/views.py:483-527 | Cancelling keeps every remaining confirmed appointment recorded by exactly one slot. |
| `BookingLaws.ToggleKeepsConsistent` | backend/doctors/views.py:220-243 | Switching a doctor on or off keeps every confirmed appointment recorded. |
| `BookingLaws.CancelWritten` | backend/doctors/views.py:511-519 | Cancelling an appointment just stored next to a new grid for its doctor writes back the released version of that grid and the cancelled appointment, and touches no other doctor. |
| `BookingLaws.CancelAfterBook` | backend/doctors/views.py:496-519 | Cancelling a just-made booking succeeds. It stores the booking's appointment as cancelled, and it leaves the doctor with the claimed grid released for that id. |
| `BookingLaws.BookThenCancel` | backend/doctors/views.py:433-519 | Booking with a fresh id and then cancelling it gives the doctor back the original grid, except that the booked slot comes back freed. If the slot was pristine, every doctor document is exactly as it was before. |
| `BookingLaws.RestoredWhenUnchanged` | backend/doctors/views.py:511-514 | A doctors' collection that differs from the original in one doctor's grid only, where that grid is the original one again, is the original collection. |
| `BookingLaws.SecondBookingRefused` | backend/doctors/views.py:430-431 | After a successful booking, a second request for the same doctor, day and times is refused as already booked and changes nothing. |
| `BookingLaws.CancelTwice` | backend/doctors/views.py:496-519 | In a consistent store, cancelling a confirmed appointment a second time changes nothing further. |
| `BookingLaws.QueryAgreesWithBooking` | backend/doctors/views.py:343-362 | For a weekday, the availability query reports an unknown doctor, an offline doctor or an unscheduled day exactly when booking on that day refuses for the same reason. |
| `BookingLaws.ToggleTwice` | backend/doctors/views.py:229-235 | Switching a doctor twice restores whether it is active. The document itself is restored when it carried an explicit flag. |
| `Clinic.CheckAvailability` | backend/doctors/views.py:330-378 | The day parameter is checked before the doctor is looked up: a missing or empty day gives 400 required; any other non-weekday gives 400 invalid; each holds exactly then. An offline doctor is reported unavailable whatever its grid says. A day without an entry is reported unscheduled. Otherwise the answer is the first entry's flag (unavailable when missing) and its slots (none when missing). |
| `Clinic.DayAnswerStatus` | backend/doctors/views.py:333-347 | Status 400 exactly for a missing or invalid day, 404 exactly for an unknown doctor, and 200 exactly for an offline doctor, an unscheduled day or a scheduled day. |
| `Clinic.DayParam` | backend/doctors/views.py:331 | The day parameter is empty exactly when it is missing or empty. Lower-casing keeps its length, and leaves a weekday name unchanged. |
| `Fields.WeekdaysAreLower` | backend/doctors/views.py:331-337 | The weekday names are their own lower-case form, so lower-casing the query parameter can only turn it into a weekday, never turn a weekday into something else. |
| `Clinic.ToggleStatus` | backend/doctors/views.py:220-243 | An unknown doctor is refused and changes nothing. Otherwise the new flag is the negation of the current one, read as active when missing; it is stored explicitly; nothing else in the store changes. |
| `Clinic.SetAvailability` | backend/doctors/views.py:299-323 | The payload is validated before the doctor is looked up. An invalid payload gives exactly its errors; a valid one for an unknown doctor gives not-found; both leave the store unchanged. Otherwise the doctor's whole grid is replaced by the validated grid and nothing else changes. |
| `BookingLaws.UploadThenQuery` | backend/doctors/views.py:311-315 | After an accepted upload for an active doctor, the query for a day the upload names reports that entry as sent: its flag, true when it was left out, and its slots, none when the list was left out. |
| `BookingLaws.UploadThenQueryUnnamed` | backend/doctors/views.py:311-315 | After an accepted upload for an active doctor, every weekday the upload does not name is reported unscheduled, whatever the grid held before. |
| `BookingLaws.UploadedDayFound` | backend/doctors/serializers.py:61-68 | In an accepted upload, the entry the day search finds for a day the payload names is the one the payload put there. |
| `BookingLaws.UploadedEntry` | backend/doctors/serializers.py:53-58 | Each entry of an accepted upload carries the payload's weekday, its flag with true as the default, and its validated slots. |
| `BookingLaws.QueryReadsEntry` | backend/doctors/views.py:359-375 | For an active doctor and a weekday, the query reads the first entry for that day: its flag, unavailable when missing, and its slots. |
| `Clinic.UploadStatus` | backend/doctors/views.py:301-320 | Status 400 exactly for an invalid payload, 200 exactly for an upload, and 404 exactly for an unknown doctor. |
| `Scenarios.ClosedDayReported` | backend/doctors/views.py:370-375 | A Monday entry marked unavailable, with a free slot, is reported unavailable by the query, with the slot listed. |
| `Scenarios.ClosedDayBookable` | backend/doctors/views.py:419-431 | The same slot can still be booked, because booking reads only the slot's own flag. |
| `Scenarios.UploadOrphansAppointment` | backend/doctors/views.py:311-315 | A consistent store with one booked slot becomes inconsistent after an accepted upload that keeps the day but drops its slots. |
| `DoctorSerializers.TimeField` | backend/doctors/serializers.py:42-50 | A time field passes exactly when it is present and its stripped value is a valid 24-hour `H:MM`/`HH:MM` reading; it then yields the stripped value. A missing field is reported as required. |
| `DoctorSerializers.TimesPassLength` | backend/doctors/serializers.py:36-37 | A value that strips to a valid time always passes the five-character limit and the NUL check. |
| `DoctorSerializers.ValidateSlot` | backend/doctors/serializers.py:35-50 | A slot passes exactly when both times and both optional booking fields pass. The availability flag then defaults to true. On failure the error map names exactly the refused fields, and no other key. |
| `Scenarios.BackwardsSlotAccepted` | backend/doctors/serializers.py:42-50 | A slot from 17:00 to 9:00 is accepted: the two times are never compared. |
| `Scenarios.TimeAccepted` | backend/doctors/serializers.py:43-45 | "17:00" and "9:00" pass the time field unchanged. |
| `DoctorSerializers.SlotList` | backend/doctors/serializers.py:58 | A missing slot list stays missing. A present list passes exactly when every slot passes, and yields the validated slots in order. |
| `DoctorSerializers.ValidateDay` | backend/doctors/serializers.py:53-58 | A day entry passes exactly when its day is a weekday and its slot list passes. The whole-day flag then defaults to true. On failure the error map names exactly the refused fields, and no other key. |
| `DoctorSerializers.DayList` | backend/doctors/serializers.py:62 | The list passes exactly when every entry passes, and yields the validated entries in order. |
| `DoctorSerializers.DaysOf` | backend/doctors/serializers.py:65 | The day names are listed in the entries' order. |
| `DoctorSerializers.RepeatTestMatchesPayload` | backend/doctors/serializers.py:64-68 | On validated entries, the cardinality test `len(days) == len(set(days))` holds exactly when no two entries of the payload name the same day. |
| `DoctorSerializers.ValidateAvailability` | backend/doctors/serializers.py:61-68 | A missing list is refused as required. The upload passes exactly when every entry is valid and no day repeats, and it then yields the validated entries. A valid list with a repeated day is refused exactly with the duplicate-days error. |
| `DoctorSerializers.ValidateBooking` | backend/doctors/serializers.py:89-108 | A booking request passes exactly when every one of its seven fields passes on its own. It then carries each field's validated value; the e-mail is kept as given, not lower-cased. On failure the error map names exactly the refused fields, and no other key. |
| `DoctorSerializers.Gather` | backend/doctors/serializers.py:89-98 | The serializer's answer from its fields' answers: a request when all seven pass, otherwise an error map holding exactly the failing fields and no other key. |
| `PatientSerializers.ValidateSchedule` | backend/patients/serializers.py:48-64 | The patients' booking serializer passes exactly when the weekday, both times and the optional reason pass. It yields their values, and on failure names exactly the refused fields and no other key. |
| `PatientSerializers.SchedulesAgree` | backend/patients/serializers.py:52-64 | The doctors'-side booking serializer accepts a request exactly when its three patient fields pass and the patients' serializer accepts its schedule part; both then agree on day, times and reason. |
| `Fields.CleanChars` | backend/doctors/serializers.py:90-92 | A character value is stripped first. Blank is refused exactly when it is not allowed. A non-blank stripped value is accepted exactly when it respects the length limits and contains no NUL, and it is then the value kept. |
| `Fields.RequiredChars` | backend/doctors/serializers.py:8-9 | A missing required field is refused as required; a present one is validated as a character value. The only faults are the character-field ones. |
| `Fields.OptionalChars` | backend/doctors/serializers.py:98 | A missing optional field stays missing and passes. A present one passes exactly when its character validation passes, and yields the stripped value. |
| `Fields.EmailField` | backend/doctors/serializers.py:91 | An e-mail passes exactly when it is present, non-blank and NUL-free once stripped, and accepted by the address validator; the stripped value is kept. |
| `Fields.DayChoice` | backend/doctors/serializers.py:93-95 | A day passes exactly when it is one of the seven lower-case weekday names as given, without stripping. Any other present value is an invalid choice, and a missing one is refused as required. |
| `Fields.ValidateEach` | backend/doctors/serializers.py:58 | A nested list passes exactly when every element passes. It then yields the elements' values in order; otherwise it is one nested-invalid fault. |
| `Seqs.DistinctIffNoCollapse` | backend/doctors/serializers.py:66 | A list and its set have the same size exactly when no element occurs twice. |
| `Seqs.CardinalityAtMostLength` | backend/doctors/serializers.py:65-66 | The set of a list is never larger than the list. |
| `Seqs.FirstIndex` | backend/doctors/views.py:360 | The first element satisfying the test, or none exactly when no element does. |
| `TimeFormat.TimeMatches` | backend/doctors/serializers.py:43 | A matched time has four or five characters, a colon third from the end, and a digit last. |
| `TimeFormat.TimePatternMatches` | backend/doctors/serializers.py:43 | The anchored pattern accepts every matched time. It accepts anything else only when that is a matched time followed by one final newline. |
| `TimeFormat.TimeLanguage` | backend/doctors/serializers.py:43 | The pattern accepts exactly the 24-hour clock readings: hours 0-23 with an optional leading zero, minutes 00-59. |
| `TimeFormat.ParseThenSpell` | backend/doctors/serializers.py:48 | Every accepted time is the clock reading it denotes, spelt with the hour width it was given. |
| `TimeFormat.SpellThenParse` | backend/doctors/serializers.py:101 | Every clock reading, padded or not, is accepted and reads back as the same hour and minute. |
| `TimeFormat.MatchedTimeIsShort` | backend/doctors/serializers.py:36-37 | Accepted times have four or five characters, all digits or a colon, so the five-character limit and the NUL check never refuse one. |
| `TimeFormat.TimeExamples` | backend/doctors/serializers.py:106 | "9:00", "09:00" and "23:59" are accepted; "24:00", "9:5", "09:60" and "123:00" are not. The anchored pattern accepts "9:00" followed by a final newline. |
| `Text.AnchoredOnStripped` | backend/doctors/serializers.py:17 | On a stripped value the anchored pattern accepts exactly what its body accepts: the final-newline allowance of `$` never applies. |
| `Text.Trim` | backend/doctors/serializers.py:36-37 | Stripping cuts exactly the whitespace at both ends and nothing else. |
| `Text.TrimIdempotent` | backend/doctors/serializers.py:96-97 | Stripping an already stripped value changes nothing. |
| `Text.Lower` | backend/doctors/serializers.py:19 | Lower-casing keeps the length and lower-cases each character on its own. |
| `Text.LowerIdempotent` | backend/patients/serializers.py:31 | Lower-casing an already lower-cased value changes nothing. |
| `EmailFormat.EmailMatches` | backend/doctors/serializers.py:17 | A matched address has at least five characters, does not start with `@`, and ends in a word character. |
| `EmailFormat.EmailPatternMatches` | backend/doctors/serializers.py:17 | The anchored pattern accepts every address the body matches. It accepts anything else only when that is a matched address followed by one final newline. |
| `EmailFormat.EmailLanguage` | backend/doctors/serializers.py:17 | The registration pattern accepts exactly the strings that split as `local@domain.tld`. The local part and domain are non-empty runs of word characters, dots and hyphens; the last part is a non-empty run of word characters. |
| `EmailFormat.ScanGivesShape` | backend/patients/serializers.py:16 | Every string the pattern accepts has that split. |
| `EmailFormat.ShapeGivesScan` | backend/patients/serializers.py:16-17 | Every such split is accepted by the pattern. |
| `EmailFormat.EmailAccepted` | backend/doctors/serializers.py:17-18 | An address with dots and a hyphen in the local part and a two-level domain is accepted. |
| `EmailFormat.EmailRefused` | backend/doctors/serializers.py:16-18 | Addresses without a local part, a domain, a dot after the `@` or a last part are refused. |
| `EmailFormat.LowerKeepsShape` | backend/patients/serializers.py:18 | Lower-casing keeps the `local@domain.tld` shape. |
| `Accounts.RegistrationEmail` | backend/doctors/serializers.py:16-19 | A registration e-mail passes exactly when it passes the e-mail field and its stripped value has the `local@domain.tld` shape. It is then stored lower-cased. |
| `Accounts.ValidateRegistration` | backend/doctors/serializers.py:4-24 | Assuming the unmodelled fields pass, registration passes exactly when the e-mail passes and both passwords pass and are equal. It then yields the normalised e-mail and the password. Differing valid passwords are refused exactly with a mismatch under the password key. |
| `Accounts.Check` | backend/patients/serializers.py:20-23 | Assuming the unmodelled fields pass, the password comparison runs only when every modelled field passed. Otherwise the error map names exactly the failing fields, and no other key, and is never the mismatch answer. |
| `Accounts.LoginEmail` | backend/doctors/serializers.py:31-32 | A login e-mail passes exactly when it passes the e-mail field, with no pattern, and is lower-cased. |
| `Accounts.ValidateLogin` | backend/patients/serializers.py:26-31 | Login passes exactly when the e-mail and a non-blank password pass; on failure the error map names exactly the failing fields and no other key. |
| `Accounts.RegisteredEmailIsNormal` | backend/patients/serializers.py:15-18 | A stored registration e-mail is its own lower-case form and still has the `local@domain.tld` shape. |
| `Accounts.LoginFindsRegisteredEmail` | backend/patients/serializers.py:30-31 | Every address registration accepts is normalised by login to the very key registration stored. |

## Left out

- Firestore, HTTP and authentication. The document store is a pair of maps. Timestamps (`created_at`, `updated_at`, `cancelled_at`) are not modelled. JWT and bcrypt handling is outside the core.
- Concurrency. Every handler is one atomic step on the maps. The race between two simultaneous claims of one slot, which the code does not guard against, is therefore not modelled.
- The booking id. `uuid4()` is a parameter. `BookingLaws.BookKeepsConsistent` requires the id to be fresh, because random ids are not modelled.
- Exception paths. The handlers' catch-all 500 responses are modelled only for the missing doctor name after the grid write (`MissingDoctorName`). Other failures are not modelled: a day entry or slot document lacking its `day`, `start_time` or `end_time` key (a `KeyError`), and failed writes.
- `Text.Lower`: only lower-cases ASCII letters and always keeps the length, whereas Python's `str.lower()` is Unicode-wide and can change the length (`'İ'` lowers to two code points). For the weekday check this is exact, because no non-ASCII character lowers to a weekday. For stored e-mails, non-ASCII characters are left as given.
- The `\w` class. It is ASCII letters, digits and `_`; Python's `\w` on strings also admits other Unicode word characters.
- The framework's e-mail validator. It is a parameter, `accepts`, not a model of Django's `EmailValidator`.
- Other fields. The registration and profile serializers' other fields (names, phone, specialization, licence, experience, bio, date of birth, address, emergency contact) are not modelled, nor is the profile serializer at all (see the profile update below). The custom validators do not read these fields, but they do decide whether the password comparison runs (see the line for `Accounts.ValidateRegistration` below).
- Error messages. A refused field yields one fault. The framework may collect several messages per field, and the wording is not modelled.
- Type coercion. `BooleanField` coercion of strings and numbers, JSON `null`, and non-string values in character fields are not modelled; payload fields are already typed.
- The profile update, `DoctorProfileView.put` (backend/doctors/views.py:185-213). It is a second writer of the grid and of the active flag, and it is not modelled. Its serializer is partial and accepts `is_active` and `availability` (backend/doctors/serializers.py:83-84), and the view filters out only `uid`, `email`, `is_verified`, `created_at` and `password` (backend/doctors/views.py:197-198). So a profile update can replace the whole grid without the duplicate-day check (backend/doctors/serializers.py:64-68) and can switch the doctor on or off. Like the availability upload, it can drop a booked slot, leaving a confirmed appointment with no slot behind it, and so break `BookingLaws.Consistent`. The model's consistency results hold only for the five handlers modelled.
- Other writers of the grid, none of them modelled, so `BookingLaws.Consistent` and the laws built on it say nothing about them:
  - Doctor registration (backend/doctors/views.py:43-63) stores a new doctor document, under a fresh uid, with an empty grid and the active flag set.
  - The seed scripts replace or create grids directly: backend/populate_test_data.py:62-122 and backend/add_availability_and_goals.py:39-92.
  - The patients' booking and cancellation handlers, `PatientBookAppointmentView` and `PatientCancelAppointmentView`, are routed at backend/patients/urls.py:17 and 19. By their names and their serializer (the patients' booking serializer, modelled as `PatientSerializers.ValidateSchedule`), they very likely claim and free slots and write appointments. backend/patients/views.py is not part of this model, so what they write is not known here.
- Other handlers and code that do not write the grid: the doctor list, the doctor profile read, the availability read and the login view (backend/doctors/views.py); health goals, which write their own collections; and the front end.
- The patients' registration, login, profile and appointment-list handlers. backend/patients/views.py is not part of this model; by their names they concern patient documents, not the grid.
- `Accounts.ValidateRegistration`, `Accounts.Check`: the registration serializers also declare `first_name` and `last_name` as required (backend/doctors/serializers.py:8-9, backend/patients/serializers.py:8-9), plus optional fields that can still fail (phone length, experience, date of birth). The framework runs the password comparison only when every field passed. So a request with a missing name and differing passwords gets the name error in the source, while the model answers with the mismatch. The model's "exactly when" holds only when those unmodelled fields pass.
