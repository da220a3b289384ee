# Nutricion core, modelled in Dafny

Nutricion is a desktop application for a nutrition practice. It keeps patients (`User`) and
their dated body measurements (`HealthMetric`: weight, height, BMI, body-fat and muscle-mass
percentages, notes) in two SQL tables, `users` and `health_metrics`. The patient detail window
shows one patient's measurements and draws weight and BMI over time.

This project models the logic behind those screens:

- **Records.** The measurement record with its setters and the BMI rule (`Metric`), and the
  patient record with its setters (`Patient`). Both are classes whose methods update fields
  in place. `Value()` gives the record as a row.
- **Tables.** The two tables as maps from key to row, with AUTOINCREMENT high-water marks,
  the schema's foreign key, and the `ORDER BY` orderings (`Tables`, `Sorting`). Each key is
  positive, matches its row's id, and is never reused. Every measurement names a stored
  patient.
- **Repositories.** `HealthMetricManager` (`MetricRepository`) and `UserManager`
  (`UserRepository`): one statement per operation.
  - Whether the store executed a statement is the parameter `execOk`.
  - Whether the generated key could be read back is `keyReadable`.
  - The `CURRENT_TIMESTAMP` default is the parameter `now`.
- **Chart projector** (`TimeSeries`). `updateCharts`:
  - it collects the plottable rows into two point lists while tracking running extremes;
  - it sorts each list in place by timestamp;
  - it picks the time and value axis ranges.
- **Detail window handlers** (`PatientDetails`). The add, edit and delete handlers for
  measurements. The entry dialog's result is a parameter, limited to what the dialog can
  return: a cancel, or values its spin boxes hold that pass the OK check.
- **Main window** (`MainWindow`). Trimming and the required-field check for a new patient,
  the case-insensitive search, and the delete guard.
- **Measurement dialog** (`AddMetricDialog`). The spin-box ranges and the rule that decides
  whether OK closes it.

Timestamps are milliseconds since the epoch (`DateTime.Instant`). Dates are day numbers
(`Date.Day`). A null or invalid value is its own constructor. Doubles are `real`s. The two
`numeric_limits` start values of the chart loop are the exact reals
(2 − 2⁻⁵²)·2¹⁰²³ and 2⁻¹⁰²².

Where the code and its documentation differ, the model follows the code:

- `addHealthMetric` does not recompute the BMI: it stores whatever the record holds.
- `addUser` leaves the stored row in place when the generated key cannot be read, but still
  reports failure.
- `getHealthMetric` on a missing id answers a record whose columns are all zero or null.
  Callers test for id 0.

## Model

| member | source | states |
|---|---|---|
| Metric.Bmi | healtmetric.h:51-60 | BMI is never negative; it is positive exactly when weight and height both are; then BMI × (height/100)² equals the weight; otherwise it is 0 |
| Metric.WithBmi | healtmetric.h:51-60 | `calculateBmi` on a row: only the BMI column changes, and the new BMI is ≥ 0 and positive exactly when weight and height both are |
| Metric.WithBmiIdempotent | healtmetric.h:51-60 | recomputing the BMI twice is recomputing it once, and the result is non-negative and positive exactly for positive inputs |
| Metric.BmiExamples | healtmetric.h:52-58 | 70 kg at 175 cm gives a BMI strictly between 22.85 and 22.86; a zero weight or height gives 0 |
| Metric.HealthMetric.constructor | healtmetric.h:11-16 | the full constructor stores all ten arguments verbatim |
| Metric.HealthMetric.New | healtmetric.h:19-24 | the new-record constructor sets id −1 and BMI 0 and keeps the other eight arguments |
| Metric.HealthMetric.SetId | healtmetric.h:39 | only the id changes |
| Metric.HealthMetric.SetUserId | healtmetric.h:40 | only the patient id changes |
| Metric.HealthMetric.SetDate | healtmetric.h:41 | only the date changes |
| Metric.HealthMetric.SetWeight | healtmetric.h:42 | only the weight changes |
| Metric.HealthMetric.SetHeight | healtmetric.h:43 | only the height changes |
| Metric.HealthMetric.SetBmi | healtmetric.h:44 | only the BMI changes |
| Metric.HealthMetric.SetBodyFatPercentage | healtmetric.h:45 | only the body-fat percentage changes |
| Metric.HealthMetric.SetMuscleMassPercentage | healtmetric.h:46 | only the muscle-mass percentage changes |
| Metric.HealthMetric.SetNotes | healtmetric.h:47 | only the notes change |
| Metric.HealthMetric.SetCreatedAt | healtmetric.h:48 | only the creation time changes |
| Metric.HealthMetric.CalculateBmi | healtmetric.h:51-60 | only the BMI field changes, to the rule applied to the record's weight and height; afterwards it is ≥ 0 and positive exactly when both inputs are |
| Patient.User.constructor | user.h:13-18 | the full constructor stores all nine arguments verbatim |
| Patient.User.New | user.h:21-26 | the new-patient constructor sets id −1 and a null creation time and keeps the seven given fields |
| Patient.User.SetId | user.h:40 | only the id changes |
| Patient.User.SetFirstName | user.h:41 | only the first name changes |
| Patient.User.SetLastName1 | user.h:42 | only the first surname changes |
| Patient.User.SetLastName2 | user.h:43 | only the second surname changes |
| Patient.User.SetGender | user.h:44 | only the gender changes |
| Patient.User.SetBirthDate | user.h:45 | only the birth date changes |
| Patient.User.SetActivityLevel | user.h:46 | only the activity level changes |
| Patient.User.SetGoal | user.h:47 | only the goal changes |
| Patient.User.SetCreatedAt | user.h:48 | only the creation time changes |
| Sorting.InsertBy | healthmetricmanager.cpp:45-46 | ordered insertion returns the old elements plus the new one, as a multiset |
| Sorting.InsertBySorted | healthmetricmanager.cpp:45-46 | under a total preorder, insertion keeps a list sorted, and duplicate-free when the element is new |
| Sorting.InsertByStep | usermanager.cpp:48 | insertion into a sorted duplicate-free list keeps it sorted and duplicate-free and adds exactly the new element |
| Tables.ChronologicalIsTotalPreorder | healthmetricmanager.cpp:46 | ordering by date and then by creation time is total and transitive |
| Tables.DateLe | healthmetricmanager.cpp:46 | ascending order of the date column: the null date first, then by day |
| Tables.DateTimeLe | healthmetricmanager.cpp:46 | ascending order of `created_at`: null first, then by instant |
| Tables.ChronologicalLe | healthmetricmanager.cpp:46 | `ORDER BY date ASC, created_at ASC`: by date, and by creation time between rows of the same date |
| Tables.TextLe | usermanager.cpp:48 | BINARY text order: character codes compared left to right, a prefix first |
| Tables.FirstNameLe | usermanager.cpp:48 | `ORDER BY first_name ASC`: patients compared by first name in text order |
| Tables.TextLeTotal | usermanager.cpp:48 | any two texts are comparable |
| Tables.TextLeTransitive | usermanager.cpp:48 | text order is transitive |
| Tables.FirstNameIsTotalPreorder | usermanager.cpp:48 | ordering patients by first name is total and transitive |
| Tables.Store.constructor | databasemanager.cpp:170-206 | new tables are empty, consistent, and their counters are at 0 |
| Tables.Store.SelectMetricsOfUser | healthmetricmanager.cpp:44-72 | the selection holds exactly the stored rows of that patient, each once, ascending by date and then creation time |
| Tables.Store.SelectAllUsers | usermanager.cpp:47-67 | the selection holds exactly the stored patients, each once, ascending by first name |
| MetricRepository.HealthMetricManager.AddHealthMetric | healthmetricmanager.cpp:13-38 | succeeds exactly when the statement runs and the patient exists; it then adds one row under a fresh key holding every other column exactly as the record has it; otherwise nothing changes |
| MetricRepository.HealthMetricManager.GetHealthMetricsByUserId | healthmetricmanager.cpp:41-76 | a failed query yields the empty list; otherwise exactly the patient's stored rows, each once, ascending by date then creation time |
| MetricRepository.HealthMetricManager.UpdateHealthMetric | healthmetricmanager.cpp:79-120 | fails for id ≤ 0, a failed statement, or no matching row, leaving the table unchanged; otherwise overwrites every column of that row but key and creation time, and no other row |
| MetricRepository.HealthMetricManager.DeleteHealthMetric | healthmetricmanager.cpp:123-146 | fails for id ≤ 0, a failed statement, or no matching row; otherwise removes exactly that row |
| MetricRepository.HealthMetricManager.GetHealthMetric | healthmetricmanager.cpp:148-171 | answers a new record equal to the stored row, or else `EmptyRow` (id 0, patient 0, null date and creation time, zero measurements, empty notes); its id reads 0 exactly when the row could not be read |
| UserRepository.UserManager.AddUser | usermanager.cpp:14-42 | inserts the seven data fields under a fresh key stamped with the current time whenever the statement runs; succeeds, and writes the key into the caller's record, exactly when the key can be read back |
| UserRepository.UserManager.GetAllUsers | usermanager.cpp:45-70 | a failed query yields the empty list; otherwise every stored patient once, ascending by first name |
| UserRepository.UserManager.UpdateUser | usermanager.cpp:73-107 | fails for id ≤ 0, a failed statement, or no matching row; otherwise overwrites the seven data fields of that patient, keeping key and creation time |
| UserRepository.UserManager.DeleteUser | usermanager.cpp:110-133 | fails for id ≤ 0, a failed statement, or no matching row; otherwise removes exactly that patient and, by the cascade, exactly their measurements, so none refers to the patient afterwards |
| UserRepository.UserManager.GetUserById | usermanager.cpp:137-168 | answers the stored row with that id, or nothing when there is none or the query fails |
| TimeSeries.DoubleLimits | patientdetailswindow.cpp:317-320 | the smallest positive double lies strictly between 0 and 1, and the largest double is at least 1024 |
| TimeSeries.Plottable | patientdetailswindow.cpp:333-341 | a table row is plotted when all three cells exist, its date parses, and weight and BMI are both positive |
| TimeSeries.WeightPoint | patientdetailswindow.cpp:344 | the weight point of a plottable row: its timestamp in milliseconds and its weight |
| TimeSeries.BmiPoint | patientdetailswindow.cpp:345 | the BMI point of a plottable row: the same timestamp and its BMI |
| TimeSeries.SortedByTime | patientdetailswindow.cpp:359-364 | the order the sort comparator `a.x() < b.x()` leaves: timestamps never decrease along the list |
| TimeSeries.WeightPoints | patientdetailswindow.cpp:333-345 | the weight points are no more than the rows, and every weight plotted is positive |
| TimeSeries.BmiPoints | patientdetailswindow.cpp:333-345 | the BMI points are no more than the rows, and every BMI plotted is positive |
| TimeSeries.Earliest | patientdetailswindow.cpp:348 | the running minimum date is one of the timestamps and not above any of them |
| TimeSeries.Latest | patientdetailswindow.cpp:349 | the running maximum date is one of the timestamps and not below any of them |
| TimeSeries.Lowest | patientdetailswindow.cpp:317-352 | the running minimum is at most the largest double, bounds every value from below, and is either its start value or one of the values |
| TimeSeries.Highest | patientdetailswindow.cpp:318-353 | the running maximum is at least the smallest positive double, bounds every value from above, and is either its start value or one of the values |
| TimeSeries.PaddedRange | patientdetailswindow.cpp:396-397 | the value axis runs from 95 % of the minimum to 105 % of the maximum; for positive values it lies strictly outside them, and its lower end stays positive |
| TimeSeries.FivePercentMargin | patientdetailswindow.cpp:385 | the time margin is 5 % of the span, truncated toward zero |
| TimeSeries.FivePercentMarginIsQuotient | patientdetailswindow.cpp:385 | for a non-negative span, the margin is exactly the span divided by 20, rounded down |
| TimeSeries.TimeAxisFor | patientdetailswindow.cpp:380-387 | one day either side when the first and last instants coincide; otherwise the same truncated 5 % margin on both sides |
| TimeSeries.CollectedExactly | patientdetailswindow.cpp:333-345 | a point is collected exactly when some row is plottable (date parses, weight and BMI positive) and yields it; other rows are dropped |
| TimeSeries.PointsShareTimes | patientdetailswindow.cpp:344-345 | the weight and BMI lists have the same timestamps in the same order |
| TimeSeries.TimesOfPermutation | patientdetailswindow.cpp:359-364 | lists holding the same points hold the same timestamps |
| TimeSeries.SortedIsUnique | patientdetailswindow.cpp:359-364 | two ascending timestamp lists with the same elements are equal |
| TimeSeries.SortedSeriesShareTimes | patientdetailswindow.cpp:359-364 | after both sorts, the two series still carry identical timestamp sequences |
| TimeSeries.Swap | patientdetailswindow.cpp:359-364 | the two positions are exchanged, the rest is kept, the contents are a permutation |
| TimeSeries.SinkLast | patientdetailswindow.cpp:359-364 | one insertion step extends the sorted prefix by one element and keeps a permutation |
| TimeSeries.SortByTime | patientdetailswindow.cpp:359-364 | the array ends ascending by timestamp and holds the same points |
| TimeSeries.PointsStep | patientdetailswindow.cpp:328-356 | one more row adds its point to each list when plottable and nothing otherwise |
| TimeSeries.ExtremesAppend | patientdetailswindow.cpp:348-353 | after one more point the running extremes change only when the point lies strictly beyond them |
| TimeSeries.CollectPoints | patientdetailswindow.cpp:314-356 | the loop yields exactly the collected points and the earliest, latest, lowest and highest of them; both dates stay null when nothing was plotted |
| TimeSeries.TimeRange | patientdetailswindow.cpp:378-388 | one day either side of a single instant, otherwise the truncated 5 % of the span on each side; the range contains both ends and is never empty |
| TimeSeries.SortedCopy | patientdetailswindow.cpp:359-364 | the copy is ascending by timestamp and holds the same points |
| TimeSeries.UpdateCharts | patientdetailswindow.cpp:309-407 | both series are ascending and are permutations of the collected points, with the same timestamps. With data, the time axis follows the one-day/5 % rule and value axes are 5 % below the minimum and above the maximum, containing every point. With no data, the axes are the defaults |
| TimeSeries.SameElements | patientdetailswindow.cpp:359-372 | permuted lists have the same members |
| TimeSeries.LowestPositive | patientdetailswindow.cpp:341-350 | with data, the minimum of positive values is positive |
| TimeSeries.SharedTimesWithin | patientdetailswindow.cpp:348-392 | every BMI point's timestamp lies between the weight list's earliest and latest, so one time axis serves both charts |
| TimeSeries.ValuesWithin | patientdetailswindow.cpp:396-397 | the 5 %-widened value range strictly contains every value |
| TimeSeries.PlottedWithinAxes | patientdetailswindow.cpp:375-397 | with data, the time axis is non-empty and every plotted point lies inside its chart's axes |
| TimeSeries.HighestAttained | patientdetailswindow.cpp:318-351 | the running maximum is one of the values once every value is at least the smallest positive double |
| TimeSeries.LowestAttained | patientdetailswindow.cpp:317-350 | the running minimum is one of the values when none exceeds the largest double |
| TimeSeries.SinglePointExample | patientdetailswindow.cpp:375-397 | one 80 kg, BMI 25 row gives one point per series and a ±1 day time axis |
| TimeSeries.SinglePointAxesExample | patientdetailswindow.cpp:396-397 | that single point gets the value axes [76, 84] for weight and [23.75, 26.25] for BMI |
| TimeSeries.DroppedRowsExample | patientdetailswindow.cpp:333-341 | rows with an unparsable date, a zero weight or missing cells give no points |
| TimeSeries.MarginExample | patientdetailswindow.cpp:385 | a ten-day span gets a 43 200 000 ms margin each side, and a 39 ms span a 1 ms margin |
| PatientDetails.Edited | patientdetailswindow.cpp:198-206 | the edited record keeps id, patient and creation time, takes date, weight, height, both percentages and notes from the dialog, and carries the BMI of the new weight and height |
| PatientDetails.Added | patientdetailswindow.cpp:135-147 | the new record is for the current patient, stamped with the current time, holds the dialog's date, weight, height, percentages and notes, and has the BMI of its weight and height |
| PatientDetails.EditedIdempotent | patientdetailswindow.cpp:198-206 | editing twice with the same values equals editing once |
| PatientDetails.AcceptedGivesPositiveBmi | patientdetailswindow.cpp:135-147 | a record entered through an accepted dialog has a positive BMI |
| PatientDetails.InDialogRanges | addmetricdialog.cpp:19-37 | a stored measurement whose weight, height and percentages lie in the spin-box ranges and whose BMI is positive |
| PatientDetails.Returnable | addmetricdialog.cpp:19-67 | a dialog result is either a cancel or values the spin boxes hold that OK accepts |
| PatientDetails.AddedInDialogRanges | patientdetailswindow.cpp:135-147 | a record added from values the spin boxes hold lies in the dialog ranges and has a positive BMI |
| PatientDetails.EditedInDialogRanges | patientdetailswindow.cpp:198-206 | a record edited with values the spin boxes hold lies in the dialog ranges and has a positive BMI, whatever it held before |
| PatientDetails.PatientDetailsWindow.OnAddMetricClicked | patientdetailswindow.cpp:118-163 | for a result the dialog can return: a cancel changes nothing; otherwise exactly one record is added under a fresh key, for this patient, with the BMI computed, exactly when the insert succeeds, and that record lies in the dialog ranges with a positive BMI; the patient counter never moves, and the measurement counter moves only on a successful insert |
| PatientDetails.PatientDetailsWindow.OnEditClicked | patientdetailswindow.cpp:165-220 | for a result the dialog can return: nothing changes without a selection, when the fetch fails (id reads 0), or on cancel; otherwise the selected row gets the dialog's values and a recomputed BMI, keeping patient and creation time, and lies in the dialog ranges with a positive BMI; both key counters stay put |
| PatientDetails.PatientDetailsWindow.OnDeleteClicked | patientdetailswindow.cpp:222-248 | nothing changes without a selection or confirmation; otherwise exactly the selected measurement is removed when the delete succeeds, and both key counters stay put |
| MainWindow.DropLeading | mainwindow.cpp:66-68 | the result is a suffix with no leading white space, and only white space was cut |
| MainWindow.DropTrailing | mainwindow.cpp:66-68 | the result is a prefix with no trailing white space, and only white space was cut |
| MainWindow.IsSpace | mainwindow.cpp:66-68 | the characters `trimmed` strips: tab to carriage return, space, next line and no-break space |
| MainWindow.Trimmed | mainwindow.cpp:66-68 | trimming never lengthens the text, and a non-empty result neither starts nor ends with white space |
| MainWindow.TrimmedIsCore | mainwindow.cpp:66-68 | trimming yields a contiguous part of the text whose ends are not white space |
| MainWindow.TrimmedEmptyIffBlank | mainwindow.cpp:66-79 | a field trims to empty exactly when it is all white space |
| MainWindow.TrimmedIdempotent | mainwindow.cpp:66-68 | trimming twice is trimming once |
| MainWindow.Cleaned | mainwindow.cpp:66-72 | the three name fields are trimmed and the other fields are taken as read |
| MainWindow.RequiredFieldsPresent | mainwindow.cpp:75 | first name, first surname, gender and activity level non-empty and the birth date set |
| MainWindow.NewRow | mainwindow.cpp:83 | the row a valid form becomes: its seven fields, with the key and creation time the store assigns |
| MainWindow.RequiredFieldsOfRawForm | mainwindow.cpp:66-79 | a raw form passes exactly when first name and first surname are not blank, gender and activity level are non-empty and the birth date is set; the second surname and goal are free |
| MainWindow.Lower | mainwindow.cpp:156-160 | ASCII capitals map to lower case, everything else is kept, and no capital remains |
| MainWindow.LowerString | mainwindow.cpp:156-160 | lower-casing keeps the length |
| MainWindow.LowerStringIdempotent | mainwindow.cpp:156-160 | lower-casing twice is lower-casing once |
| MainWindow.ContainsText | mainwindow.cpp:158-160 | `contains`: the needle occurs at some position of the text |
| MainWindow.Matches | mainwindow.cpp:156-160 | the lower-cased term occurs in the lower-cased first name, first surname or second surname |
| MainWindow.EmptyTermMatches | mainwindow.cpp:155-167 | every patient matches the empty term |
| MainWindow.MatchIgnoresCase | mainwindow.cpp:156 | matching a term and its lower-case form give the same answer |
| MainWindow.KeepLast | mainwindow.cpp:157-164 | appending a kept user to both lists keeps the subsequence relation |
| MainWindow.SkipLast | mainwindow.cpp:157-164 | skipping a user keeps the subsequence relation |
| MainWindow.DropLast | mainwindow.cpp:157-164 | a subsequence without its last element is still a subsequence |
| MainWindow.Kept | mainwindow.cpp:155-167 | the matching patients in list order; it is no longer than the list and holds exactly the patients of the list that match |
| MainWindow.KeptCounts | mainwindow.cpp:157-163 | every occurrence of a matching patient is kept and every occurrence of another is dropped |
| MainWindow.KeptIsSubsequence | mainwindow.cpp:157-163 | the kept patients appear in the order of the list |
| MainWindow.KeptEmptyTerm | mainwindow.cpp:165-167 | with an empty term the whole list is kept |
| MainWindow.KeptOrdered | mainwindow.cpp:152-167 | filtering a sorted list leaves it sorted by the same order, and filtering a list without repeats adds none |
| MainWindow.FilterUsers | mainwindow.cpp:152-167 | the result is exactly the matching patients in list order, each occurrence kept; an empty term keeps the whole list; a user is kept exactly when the lower-cased term occurs in a lower-cased name or surname |
| MainWindow.MainWindowView.OnAddUserClicked | mainwindow.cpp:63-107 | names are trimmed; a form missing a required field adds nothing and reports failure; otherwise the trimmed patient is inserted whenever the statement runs, and success is reported exactly when the key is read back; the measurement counter never moves, and the patient counter moves only when a row is inserted |
| MainWindow.MainWindowView.LoadUsersIntoTable | mainwindow.cpp:152-167 | the table shows exactly the stored patients matching the term, each once and ascending by first name, or none when the query fails |
| MainWindow.MainWindowView.OnDeleteUserClicked | mainwindow.cpp:115-149 | nothing changes without a selection or confirmation; otherwise, when the delete succeeds, exactly the selected patient and exactly their measurements are removed, every other measurement is kept, and both key counters stay put |
| AddMetricDialog.OnOkClicked | addmetricdialog.cpp:56-67 | OK never rejects; it accepts exactly when weight and height are both positive and otherwise leaves the dialog open |
| AddMetricDialog.OnCancelClicked | addmetricdialog.cpp:69-72 | cancel always rejects |
| AddMetricDialog.Holdable | addmetricdialog.cpp:19-37 | values the spin boxes can hold: weight in [1, 300], height in [50, 250], both percentages in [0, 100] |
| AddMetricDialog.HoldableIsAccepted | addmetricdialog.cpp:19-66 | any values the spin boxes can hold pass the positivity check, so OK always accepts them |

## Left out

- Database bootstrap in databasemanager.cpp and app startup in main.cpp are I/O. The schema at databasemanager.cpp:170-206 gives only the shape of the two tables.
- SQLite enforces `ON DELETE CASCADE` and the foreign key only after `PRAGMA foreign_keys`, and no such pragma is issued. The model enforces both as the schema declares them.
- The NOT NULL column constraints are not modelled: a null date or birth date is stored as its own value.
- The engine's rule that affected rows mean changed rows is not modelled. "Rows affected" is "rows matched".
- UserRepository.UserManager.AddUser: which key `lastInsertId` returns is not modelled. The key is taken to be the fresh one when it can be read.
- Qt's widgets, message boxes, `dialog.exec()`, the chart and axis objects, column hiding, table population and `loadHealthMetrics` are not modelled. The table cells `updateCharts` reads are a sequence of rows, and the chart is two point sequences with three ranges.
- Weight and BMI go through the table as text with two decimals and are parsed back before plotting. This round trip is not modelled: the cell values are taken as given.
- Doubles are reals. Rounding is not modelled.
- TimeSeries.TimeRange: `(maxMs - minMs) * 0.05` in doubles, truncated to 64 bits, is modelled as the integer quotient of the span by 20. They can differ once the span reaches 2⁵² ms (about 143 000 years), because 0.05 as a double lies slightly above 1/20. For example, a span of 6 755 449 412 726 119 ms gives a margin of 337 772 470 636 306 ms in doubles against a quotient of 337 772 470 636 305 ms.
- ISO 8601 date parsing and formatting, local time, `currentDateTime`, `addMonths(-1)` and `addDays(1)` are not modelled. A parse result is an optional timestamp, and the default time range is a parameter.
- TimeSeries.SortByTime: `std::sort` is modelled by an insertion sort with the same contract (ascending by timestamp, a permutation). The order among equal timestamps is not fixed by `std::sort`, and it is not stated here either.
- MainWindow.Lower: `QString::toLower` is Unicode-aware, while the model lower-cases ASCII letters only.
- MainWindow.IsSpace: `trimmed` strips every Unicode space, while the model strips the ASCII white space, next line and no-break space.
- `QSharedPointer` ownership, Qt parent ownership and `User(QObject*)` are not modelled. Records are objects or values.
- Code that does not compile as written follows its evident intent:
  - the `HealthMetric metrics;` default at healthmetricmanager.cpp:150 becomes the all-zero row `MetricRepository.EmptyRow`;
  - the vector assignment at mainwindow.cpp:153 becomes the repository's list;
  - the edit-dialog constructor, declared but undefined, is left out. Its pre-filled values are inputs of the edit handler.
- Headers hold no logic. They supplied signatures only.
