# DDL-collector task engine, modelled in Dafny

`sync_assignments.py` keeps a registry of course assignments (`tasks.json`:
task id to task record) and sends a daily digest of the ones still to do.
Each run does the following:

- It observes the current assignments: PrairieLearn through its API, and
  BioE 210 as a generated weekly schedule.
- It merges them into the registry. Every completion flag is kept, and
  records that are past due and no longer observed are pruned.
- It picks the pending records (not completed, due in the future), sorted
  by their due text.
- It splits them into "due this week", "later" and "due within 24 hours",
  and colours and labels each one by its urgency.

This project models that task-state engine and proves what it promises:

| concern | module | file |
|---|---|---|
| instants, dates and the library calls as a `Calendar`; `parse_iso` | `Clock` | clock.dfy |
| the observed assignment, the task record, the registry | `Tasks` | tasks.dfy |
| `task_id` | `Identity` | identity.dfy |
| `merge_tasks`: a specification `Merge` and the loop-by-loop `MergeTasks` | `Reconcile` | reconcile.dfy |
| a re-dated assignment becoming a new record | `Rescheduling` | scenario.dfy |
| `urgency_color`, `urgency_label` | `Urgency` | urgency.dfy |
| the pending selection and sort in `main`; the buckets of `build_html` | `Digest` | digest.dfy |
| `generate_bioe_assignments` | `Bioe` | bioe.dfy |
| `str(n)` for the week number and the hours/days shown | `Decimal` | decimal.dfy |
| a concrete calendar on which `Calendar.Valid()` holds | `SampleCalendar` | sample_calendar.dfy |
| `Option`, `Result` | `Wrappers` | wrappers.dfy |

## How time and the library calls are modelled

- **Instants** are whole seconds on one absolute time line (`Clock.Instant`).
- **Dates** are day ordinals in Python's convention: day 1 is Monday
  0001-01-01. So `date.weekday()` is `(d + 6) % 7`.
- **Library calls.** The engine calls `datetime.fromisoformat`,
  `isoformat`, `.date()` in America/Chicago, `strftime('%Y%m%d')` and pytz's
  `localize`. These are not reimplemented. They are the fields of a
  `Clock.Calendar` value, passed as a parameter.
- **`Calendar.Valid()`** states the few facts the proofs use:
  - `isoformat` output parses back to the same instant;
  - on dates in the years 1000 to 9999 (`Clock.InYmdRange`, the ordinals
    364878 to 3652059), `strftime('%Y%m%d')` gives eight digits, and no two
    such dates give the same text;
  - a localized wall-clock time falls on its own calendar date;
  - Central time is never more than a day ahead of UTC.

  The BioE generator needs only that last fact for its dates. Its distinct
  ids use the others too. `SampleCalendar.Utc` is one concrete calendar that
  meets every clause: decimal seconds, UTC days, and the ordinal in eight
  digits in place of year, month and day. `SampleCalendar.UtcIsValid`
  proves it, so the lemmas that assume `Valid()` apply to at least one
  calendar.
- **The clock.** `now_ct()` becomes the parameter `now`. `SEMESTER_END`
  becomes the parameter `semesterEnd`.
- **Exceptions become `Result` values.** The code does not catch two of them:
  - **`BadIsoFormat`**: `fromisoformat` raises on a malformed non-empty due.
  - **`NoDueToCompare`**: the pending filter compares `None > datetime`,
    which raises; a record not completed with an empty due causes it.

  An empty due is `""`. On `""`, `parse_iso` returns `None`, and such a
  record survives pruning.

### Two consequences of the code worth spelling out

- **A due of 7 days 1 hour.** `urgency_color` and `urgency_label` use
  `timedelta.days`, which rounds down. So 7 days 1 hour counts as 7 days,
  and the task is in the yellow "7 days" tier, not the green one. See
  `Urgency.UrgencyBoundaries`.
- **A due moved to another date.** The task id contains the due date
  (sync_assignments.py:45). So when an assignment is observed again with a
  due on another date, the merge does not update the stored record's due.
  It adds a new record with `completed == false`. The old record stays
  unchanged, completion flag and old due included, until its old due
  passes. See `Rescheduling.RescheduleAddsNewRecord`.

## Model

| member | source | states |
|---|---|---|
| Clock.ParseIso | sync_assignments.py:37-40 | The empty string gives no instant. A non-empty string gives an instant exactly when `fromisoformat` accepts it. Otherwise the call fails with `BadIsoFormat`. |
| Clock.ParseIsoRoundTrip | sync_assignments.py:37-40 | A due written by `isoformat` is read back by `parse_iso` as the same instant. |
| SampleCalendar.UtcIsValid | sync_assignments.py:37-45 | The facts `Calendar.Valid()` assumes of `fromisoformat`, `isoformat`, `.date()`, `strftime` and `localize` hold together of one concrete calendar. |
| Clock.FloorDiv | sync_assignments.py:158 | `timedelta.days` and `// 3600` are floor divisions: b*q <= a < b*q + b, also for negative time left. |
| Clock.Weekday | sync_assignments.py:54 | `date.weekday()` lies in 0..6. |
| Clock.WallClock | sync_assignments.py:61 | No contract; `datetime.combine(date, time)` as a wall-clock reading. Specified by `Bioe.DeadlineWallStep` and `Bioe.DeadlineDate`. |
| Identity.SafeChar | sync_assignments.py:44 | One character of the safe title is always in [a-z0-9_]. It is `_` exactly when the input is not an ASCII letter or digit. Upper-case letters are lowered. Lower-case letters and digits are kept. |
| Identity.Safe | sync_assignments.py:44 | The substitution is one for one: same length as the title, each position the safe character of the title's character. Runs are not collapsed. |
| Identity.TaskIdShape | sync_assignments.py:42-45 | For a due on a date with a four-digit year, the id has the title's length plus 10 characters, all in [a-z0-9_]. It is the safe title, then `__`, then eight digits. |
| Identity.TaskIdEqualIff | sync_assignments.py:42-45 | For dues on dates with four-digit years, two ids are equal if and only if the safe titles are equal and the dues fall on the same Central date. |
| Identity.SameDateSameId | sync_assignments.py:42-45 | Two dues on the same date give the same id, whatever their time of day. |
| Identity.PunctuationCollides | sync_assignments.py:44 | "a b" and "a-b" on the same date get the same id. |
| Identity.CaseCollides | sync_assignments.py:44 | "HW" and "hw" on the same date get the same id. |
| Identity.SafeDifferenceSeparates | sync_assignments.py:42-45 | Titles whose safe forms differ at some position never share an id, whatever the dues. |
| Identity.DistinctHomeworkIds | sync_assignments.py:42-45 | "BioE 210 HW 5" and "BioE 210 HW 6" never share an id. |
| Identity.SafeOfIdChars | sync_assignments.py:44 | A title already made of [a-z0-9_] is its own safe form. |
| Identity.TaskId | sync_assignments.py:42-45 | No contract; specified by `Identity.TaskIdShape` and `Identity.TaskIdEqualIff`. |
| Reconcile.LastWithIsLast | sync_assignments.py:124-143 | The observation that supplies an id's metadata is one that no later observation with the same id follows. |
| Reconcile.FirstWithIsFirst | sync_assignments.py:124-135 | The observation that creates a new id's record is the earliest with that id. |
| Reconcile.ApplyBatchAt | sync_assignments.py:123-143 | After the insert/refresh loop, an id is present if and only if it was stored or observed. An observed id's record is its base record (stored, or created from the first observation) refreshed by the last observation. An unobserved id is untouched. |
| Reconcile.NewRecord | sync_assignments.py:127-135 | No contract; specified by `Reconcile.MergeObserved` and `Reconcile.MergeNewSingle`. |
| Reconcile.Refresh | sync_assignments.py:138-143 | No contract; specified by `Reconcile.MergeObserved` and `Reconcile.MergeKeepsCompleted`. |
| Reconcile.Upsert | sync_assignments.py:125-143 | No contract; specified by `Reconcile.ApplyBatchAt`. |
| Reconcile.ApplyBatch | sync_assignments.py:124-143 | No contract; specified by `Reconcile.ApplyBatchAt` and `Reconcile.ApplyBatchAgain`. |
| Reconcile.Prune | sync_assignments.py:144-152 | No contract; specified by `Reconcile.MergeFailsIff` and `Reconcile.MergePrunesExactly`. |
| Reconcile.Merge | sync_assignments.py:121-153 | No contract; specified by the Merge lemmas below. |
| Reconcile.IdsOf | sync_assignments.py:145 | No contract; `fresh_ids`. Specified by `Reconcile.MergeKeys` and `Reconcile.MergePrunesExactly`. |
| Reconcile.PastDue | sync_assignments.py:149 | No contract; the due test of the cleanup. Specified by `Reconcile.CollectStale` and `Reconcile.MergePrunesExactly`. |
| Reconcile.MergeFailsIff | sync_assignments.py:145-150 | The merge fails if and only if some stored, unobserved record has a non-empty due that `fromisoformat` rejects. |
| Reconcile.MergeKeys | sync_assignments.py:124-152 | A successful merge keeps every observed id. Every key was stored before or observed now. |
| Reconcile.MergeObserved | sync_assignments.py:126-143 | Title, course, due and url come from the last observation with the id. A stored id keeps its `id`, `source` and `completed`. A new id gets the id, the first observation's source, and `completed == false`. |
| Reconcile.MergeNewSingle | sync_assignments.py:126-135 | A new id observed once gets exactly the record built from that observation, with `completed == false`. |
| Reconcile.MergePrunesExactly | sync_assignments.py:144-152 | An unobserved record is removed if and only if its due is non-empty and parses to an instant before `now`. Otherwise it is kept unchanged; future and empty dues alike. |
| Reconcile.MergeKeepsCompleted | sync_assignments.py:121-153 | A merged record is completed if and only if it was stored and completed: a true flag stays true. |
| Reconcile.ApplyBatchAgain | sync_assignments.py:124-143 | Running the insert/refresh loop again with the same batch over its own result changes nothing. |
| Reconcile.MergeIdempotent | sync_assignments.py:121-153 | Merging the same batch again at the same `now` gives the same registry. |
| Reconcile.ApplyObservations | sync_assignments.py:123-143 | The loop over the batch computes `ApplyBatch`. |
| Reconcile.CollectStale | sync_assignments.py:145-150 | The `to_remove` comprehension fails with `BadIsoFormat` if and only if some unobserved record's due is malformed. Otherwise it yields exactly the unobserved ids that are past due. |
| Reconcile.Stale | sync_assignments.py:147-150 | No contract; `to_remove` as a set. Specified by `Reconcile.CollectStale` and `Reconcile.MergeTasks`. |
| Reconcile.DeleteAll | sync_assignments.py:151-152 | The deletion loop leaves exactly the records whose ids are not selected. |
| Reconcile.MergeTasks | sync_assignments.py:121-153 | The procedure's result equals the specification `Merge`, so every Merge lemma above holds of it. |
| Rescheduling.RescheduleAddsNewRecord | sync_assignments.py:42-45 | An assignment observed again with its due moved to another date (both dates with four-digit years) gets a new record (`completed == false`). The old record, with its completion flag and old due, is kept unchanged while that due lies ahead. |
| Urgency.UrgencyColor | sync_assignments.py:157-162 | Red if and only if less than one day is left, orange for 1 to 4 days, yellow for 4 to 8 days, green from 8 days. These are stated on the seconds left, overdue included. |
| Urgency.UrgencyLabel | sync_assignments.py:164-171 | Hours are shown if and only if less than a day is left, and the number shown is the floored hours. Then Tomorrow for 1 to 2 days, orange days for 2 to 4, yellow for 4 to 8, green from 8; each shows the floored days. |
| Urgency.ColorMatchesLabel | sync_assignments.py:157-171 | The colour and label tiers agree, except that "Tomorrow" is coloured orange. |
| Urgency.DaysLeft | sync_assignments.py:158 | No contract; `(due - now).days` as a floor division. Specified by `Urgency.UrgencyColor`, `Urgency.UrgencyLabel` and `Urgency.UrgencyBoundaries`. |
| Urgency.HoursLeftOf | sync_assignments.py:166 | No contract; the floored hours left. Specified by `Urgency.UrgencyLabel` and `Urgency.UrgencyBoundaries`. |
| Urgency.UrgencyBoundaries | sync_assignments.py:157-171 | 23h59m shows "23h left". 24h is Tomorrow in orange. 7 days and 7 days 1 hour are the yellow "7 days". 8 days is green. One second overdue shows "-1h left". |
| Urgency.BoundaryTexts | sync_assignments.py:164-171 | The f-strings at those boundaries: "⚠️ 23h left", "🔴 Tomorrow", "🟡 7 days" for 7 days 1 hour, "🟢 8 days", and "⚠️ -1h left" for one second overdue. |
| Urgency.Label.Text | sync_assignments.py:167-171 | No contract; specified by `Urgency.BoundaryTexts`. |
| Decimal.NatToString | sync_assignments.py:66-67 | `str(n)` is at least one digit, with no leading zero unless n is 0. |
| Decimal.NatToStringRoundTrip | sync_assignments.py:66-67 | Reading the digits back gives n, so different week numbers give different text. |
| Decimal.IntToString | sync_assignments.py:166-167 | `str(n)` of an int is at least one character and starts with `-` exactly when n is negative. |
| Decimal.IntToStringRoundTrip | sync_assignments.py:166-167 | Reading the text back as an optional sign and digits gives n. |
| Digest.StrLeTotal | sync_assignments.py:296 | Python's string order compares any two due texts. |
| Digest.StrLe | sync_assignments.py:296 | No contract; the `str` order `sorted` uses on the due texts. Specified by `Digest.StrLeTotal`, `Digest.StrLeTransitive` and `Digest.StrLeAntisymmetric`. |
| Digest.StrLeTransitive | sync_assignments.py:296 | Python's string order is transitive. |
| Digest.StrLeAntisymmetric | sync_assignments.py:296 | Python's string order is antisymmetric. |
| Digest.SortByDue | sync_assignments.py:293-296 | The sort is a permutation of its input. |
| Digest.SortByDueSorted | sync_assignments.py:293-296 | The sort's result is ordered by due text. |
| Digest.SortByDueStable | sync_assignments.py:293-296 | Records with equal due text keep their input order. |
| Digest.StableSortUnique | sync_assignments.py:293-296 | Two sequences ordered by due text with the same records per due text, in the same order, are equal. So any stable sort gives this result. |
| Digest.SelectPendingSpec | sync_assignments.py:294-295 | The filter fails if and only if some record that is not completed has an empty or malformed due; completed records are not parsed. Otherwise it keeps exactly the pending records, in order. |
| Digest.PendingInOrderCounts | sync_assignments.py:294-295 | Each pending record is kept with its multiplicity; nothing else is kept. |
| Digest.PendingInOrderIsSubsequence | sync_assignments.py:294-295 | The filter keeps the input order. |
| Digest.IsPending | sync_assignments.py:294 | No contract; the filter's test. Specified by `Digest.SelectPendingSpec` and `Digest.PendingSpec`. |
| Digest.SelectPending | sync_assignments.py:294 | No contract; specified by `Digest.SelectPendingSpec`. |
| Digest.Pending | sync_assignments.py:293-296 | No contract; specified by `Digest.PendingSpec`. |
| Digest.PendingSpec | sync_assignments.py:293-296 | `pending` holds the not-completed, future-due records with their multiplicities, ordered by due text with ties in registry order, and it is the only such sequence. |
| Digest.DueFilterMembers | sync_assignments.py:212-215 | A bucket holds exactly the records whose parsed due meets its condition, with their multiplicities. |
| Digest.DueFilterNested | sync_assignments.py:212-215 | A bucket on a stronger condition is an order-preserving sublist of one on a weaker condition. |
| Digest.DueFilterSplit | sync_assignments.py:213-214 | Buckets on a condition and its negation have lengths and multisets summing to the input's. |
| Digest.DueFilter | sync_assignments.py:213-215 | No contract; one bucket comprehension. Specified by `Digest.DueFilterMembers`, `Digest.DueFilterNested` and `Digest.DueFilterSplit`. |
| Digest.BuildDigest | sync_assignments.py:211-215 | No contract beyond requiring readable dues; specified by the three BuildDigest lemmas below. |
| Digest.BuildDigestPartition | sync_assignments.py:211-214 | `soon` and `later` are order-preserving sublists of `pending`. Their lengths sum to its length and every pending record is in exactly one of them. |
| Digest.BuildDigestMembers | sync_assignments.py:211-215 | A record is in `soon` if and only if it is due by now + 7 days, in `later` if and only if it is due after, and in `due_today` if and only if less than 24 hours are left (overdue included). |
| Digest.BuildDigestTodayInSoon | sync_assignments.py:213-215 | `due_today` is an order-preserving sublist of `soon`. |
| Digest.PendingReadable | sync_assignments.py:293-296 | Every pending record's due parses, so bucketing it cannot fail. |
| Digest.DailyDigest | sync_assignments.py:293-302 | From the merged registry's values to the pending list and its buckets. It fails if and only if the pending filter fails. On success the list is `Pending`. |
| Bioe.DaysUntilNextMonday | sync_assignments.py:53-57 | 1 to 7 days ahead, landing on a Monday, with no Monday in between, so never today. |
| Bioe.FirstMonday | sync_assignments.py:57 | No contract; `today + timedelta(days=days_until_monday)`. Specified by `Bioe.DaysUntilNextMonday` and `Bioe.GenerateBioeAssignments`. |
| Bioe.DeadlineWall | sync_assignments.py:61 | No contract; 23:59 on the date. Specified by `Bioe.DeadlineWallStep` and `Bioe.DeadlineDate`. |
| Bioe.DeadlineWallStep | sync_assignments.py:60-61 | 23:59 a calendar week later is exactly a week later on the wall clock. |
| Bioe.DeadlineOn | sync_assignments.py:61-62 | No contract; specified by `Bioe.DeadlineDate`. |
| Bioe.WeeklyAssignment | sync_assignments.py:65-72 | No contract; specified by `Bioe.WeeklyIdShape` and `Bioe.WeeklyIdsDistinct`. |
| Bioe.DeadlineDate | sync_assignments.py:60-62 | A localized 23:59 deadline falls on its own Central date. |
| Bioe.WeeklyIdShape | sync_assignments.py:66 | The id is `bioe210_hw<week>__<YYYYMMDD>`. It comes from the week number, not the displayed title. |
| Bioe.WeeklyIdsDistinct | sync_assignments.py:66 | Weekly records due on different dates with four-digit years have different ids. |
| Bioe.ScheduleSnoc | sync_assignments.py:65-74 | Appending the next week's record keeps the schedule's shape. |
| Bioe.ScheduleIsWeekly | sync_assignments.py:53-74 | A schedule from a Monday falls on Mondays exactly one calendar week apart. Week k carries "(Week k)". |
| Bioe.ScheduleIdsDistinct | sync_assignments.py:65-74 | A schedule whose dates have four-digit years never repeats an id. |
| Bioe.GenerateBioeAssignments | sync_assignments.py:49-75 | Week k (from 1) is due at 23:59 on the k-th Monday strictly after today. Every due is at most the end of the semester, and the next week's due would not be. When the calendar is valid and the dates have four-digit years, no two results share an id. |

## Left out

- Environment configuration (sync_assignments.py:17-20): process wiring that
  raises at import.
- `fetch_pl` (sync_assignments.py:79-106): HTTP calls through `requests`,
  with their status and exception handling. Its per-item rule (the first
  present close date, kept when after `now`) is not modelled either.
- `load_tasks` and `save_tasks` (sync_assignments.py:110-119): file and JSON
  I/O. The registry is a map value passed in and returned.
- `make_table` and the HTML of `build_html` (sync_assignments.py:173-261):
  presentation text. Only the three lists at lines 211-215 are modelled.
- `send_email` and the choice of subject line (sync_assignments.py:265-274,
  304-310): SMTP transport and cosmetic text.
- ISO-8601 parsing and formatting, the America/Chicago zone and its DST
  rules, and `strftime`: these are library behaviour, kept abstract in
  `Clock.Calendar`. It follows that the pytz quirk of a `tzinfo=`-built
  `SEMESTER_END` (sync_assignments.py:30) is not modelled: the end bound is a
  parameter.
- Sub-second precision: instants are whole seconds.
- Separate clock readings: the code calls `now_ct()` again in `merge_tasks`,
  `build_html` and each urgency function. The model uses one `now` per call,
  and `Digest.DailyDigest` uses the same `now` for the filter and the buckets.
- The aliasing of `dict(existing)` (sync_assignments.py:123). The copy is
  shallow, so `.update` also changes the caller's inner records. Here records
  are values and the caller's registry is not changed.
- The registry's iteration order: `Digest.Pending` takes the records in a
  given order as a sequence, where the code uses the dict's insertion order.
  Ties in the sort follow that sequence.
- Identity.SafeChar: lowering is ASCII only. Python's `str.lower()` also maps
  a few non-ASCII characters to ASCII letters: the Kelvin sign becomes `k`,
  and the dotted capital I becomes two characters. For those the model
  writes `_`.
- Bioe.ScheduleIsWeekly: states that consecutive dues are one calendar week
  apart, by date. It does not state exactly 7 x 86400 seconds: across a DST
  change the localized instants differ by an hour more or less.
- Bioe.GenerateBioeAssignments: distinct ids are promised only when the
  calendar is valid and the first and last dates have four-digit years.
- Dates before the year 1000 in ids: there `strftime('%Y%m%d')` does not
  give eight digits, and `Calendar.Valid()` says nothing about `ymd` outside
  `Clock.InYmdRange` (Python's dates end at the year 9999). The id lemmas
  (`Identity.TaskIdShape`, `Identity.TaskIdEqualIff`,
  `Bioe.WeeklyIdsDistinct`, `Bioe.ScheduleIdsDistinct`,
  `Rescheduling.RescheduleAddsNewRecord`) require dates in the years 1000 to
  9999.
