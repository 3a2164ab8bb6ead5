# Worker profiles and ratings — a Dafny model

This project models the core of a small worker-rating server (`server.py`). The server keeps four
SQLite tables:

- worker profiles;
- the ratings logged against each profile;
- a per-profile history timeline;
- a per-profile notes timeline.

It decides which profile a submitted rating belongs to by a canonical identity. It also computes
analytics for a profile from its ratings.

The model has eight modules:

| module (file) | what it holds |
|---|---|
| `Canonical` (canonical.dfy) | `normalize_worker_name`, `normalize_employee_id` and `canonical_worker_key`, with idempotence and the shape of normal forms |
| `Identity` (identity.dfy) | `find_profile_by_rating_identity` as a query over the profile table, with its decision rules |
| `Analytics` (analytics.dfy) | `clamp`, `to_five_point_scale`, `is_punctuality_category` and `score_profile_metrics`; see below |
| `Ordering` (ordering.dfy) | the `(time, id)` order in which ratings and notes are read back, and `sorted(set(...))` for categories |
| `Records` (records.dfy) | the table rows and the set-at-a-time SQL updates: `WHERE` filters, re-pointing rows to another worker, deleting and touching a profile row |
| `Validation` (validation.dfy) | the payload validators and the case-insensitive de-duplication of `load_admin_list` |
| `Store` (store.dfy) | see below |
| `Wrappers` (wrappers.dfy) | `Option` and `Result` |

`Analytics` models `score_profile_metrics` twice:

- a specification function, `MetricsOf`;
- a method with the source's loop, `ScoreProfileMetrics`, proved equal to it.

`Store` holds the class `ProfileStore`, which keeps the four tables and their AUTOINCREMENT counters
as fields. Its methods are the operations that change the tables:

- deleting one rating or note;
- replacing a worker's history or notes;
- the cascading profile delete;
- clearing all tables;
- the merge of two profiles;
- adding a rating to a known profile;
- submitting a rating through identity resolution;
- creating or updating a profile.

Every method keeps the schema's constraints (`Valid`):

- unique names, unique canonical keys and unique non-null employee ids;
- strictly increasing positive ids, all below the next id;
- every child row pointing at an existing profile.

A request that fails validation, names a missing profile or would break a uniqueness constraint
leaves every table unchanged. This is the model of the transaction rollback and the 400, 404 and 409
answers.

Modelling choices:

- **Scores.** Scores are integers. So `(raw + 5) / 2` is exact, and a normalised score of at least
  3.5 is the same as a raw score of at least 2 (`PositiveIffAtLeastTwo`).
- **Rounding.** `round(x, 2)` rounds the exact value to the nearest hundredth, and a tie goes to
  the even hundredth, as Python's `round` does: 0.125 gives 0.12. Binary floating point is not
  modelled; see `Analytics.Round2` under "## Left out".
- **`math.sqrt`.** It is a parameter of the metrics computation. Nothing is assumed about it: the
  final clamp alone gives the bound of the consistency score.
- **Timestamps and the clock.** Timestamps are integers. The current time `now` is a parameter of
  each operation that stamps a row.
- **Whitespace and case.** Whitespace is the fixed set of ASCII characters that Python's `\s` and
  `str.strip()` accept. `lower()` is ASCII lower-casing.
- **Text fields.** A text field is the text `str()` gives of the JSON value.
  - An absent `category` (submit and add-rating) is stored as the text `"None"`, while the job-type
    check reads it as empty.
  - The same holds for an absent `status` (profile creation).
  - The code does exactly this.

Behaviour of the code worth knowing:

- No validator requires a rating's category: an empty or absent category passes the job-type check.
- The canonical key `name::id` is not injective:
  - With no colon in the names, equal keys do come from equal names and ids (`JoinKeyInjective`).
  - A worker whose name itself ends in `::x` and who has no employee id gets the same key as the
    worker with the shorter name and employee id `x` (`CanonicalKeyCollision`).
  - The resolver then treats them as the same worker.
- Deleting all profiles does not reset the AUTOINCREMENT counters (`ClearAll`).

## Model

| member | source | states |
|---|---|---|
| Canonical.TrimStart | server.py:33 | the result is empty or starts with a non-whitespace character, and every character dropped was whitespace |
| Canonical.TrimEnd | server.py:33 | the result is empty or ends with a non-whitespace character, and every character dropped was whitespace |
| Canonical.Lower | server.py:33 | lower-casing keeps the length of the text |
| Canonical.StripShape | server.py:33 | `strip()` leaves no whitespace at either end and gives the empty string exactly for blank input |
| Canonical.NormalizedNameIsNormal | server.py:32-33 | a normalised name has no edge whitespace, only single plain spaces inside and no upper-case letter |
| Canonical.NormalNameIsFixpoint | server.py:32-33 | a name already in that form is returned unchanged |
| Canonical.NormalizeWorkerNameIdempotent | server.py:32-33 | normalising a name twice gives the same as normalising it once |
| Canonical.NormalizeWorkerNameIgnoresCase | server.py:32-33 | two names equal up to letter case normalise to the same name |
| Canonical.LowerIdempotent | server.py:33 | lower-casing twice is lower-casing once |
| Canonical.StripOfLower | server.py:33 | trimming and lower-casing commute |
| Canonical.NormalizeEmployeeIdShape | server.py:36-40 | the id becomes None exactly when it is missing or blank, and otherwise a non-empty, whitespace-free, lower-case text |
| Canonical.NormalEmployeeIdIsFixpoint | server.py:36-40 | an id already in that form is returned unchanged |
| Canonical.NormalizeEmployeeIdIdempotent | server.py:36-40 | normalising an id twice gives the same as normalising it once |
| Canonical.CanonicalKeyOfNormalized | server.py:43-46 | the key is the normalised name without an id and `name::id` with one, and replacing either input by its normalised form leaves the key unchanged |
| Canonical.JoinKeyInjective | server.py:43-46 | for names without a colon, equal keys imply equal normalised names and equal normalised ids |
| Canonical.CanonicalKeyCollision | server.py:43-46 | for every normal name and id, the name `name::id` without an id has the same key as `name` with the id, although the normalised names differ |
| Identity.KeyMatches | server.py:219-222 | the profiles selected by canonical key are exactly the table's profiles with that key |
| Identity.NameMatches | server.py:229-233 | the profiles selected by canonical name are exactly the table's profiles with that name |
| Identity.FindProfileByRatingIdentity | server.py:213-237 | the answer is a profile of the table; the first key match wins; with an employee id and no key match there is no answer; otherwise there is an answer exactly when one profile has the normalised name |
| Identity.KeyMatchesUnique | server.py:204-210 | with the uniqueness constraints, at most one profile matches a canonical key |
| Identity.ResolverRules | server.py:213-237 | on a valid table: a profile holding the key is the answer; else an employee id gives no match; else the single profile with the normalised name is the answer, and zero or several give no match |
| Identity.NoNameFallbackWithEmployeeId | server.py:226-227 | with an employee id, only a profile holding the requested key is ever returned |
| Identity.NameMatchIsOnlyCandidate | server.py:229-235 | a profile found by name has the normalised name, no profile holds the key, and no other profile shares its name |
| Analytics.Clamp | server.py:479-480 | the result lies in [lo, hi], equals the value inside the range and the nearer bound outside it |
| Analytics.NearestEven | server.py:484 | the chosen integer is within one half of the input |
| Analytics.Round2 | server.py:484 | the rounded value is within half a hundredth of the input |
| Analytics.Round2TiesToEven | server.py:484 | ties go to the even hundredth: 0.125 gives 0.12 and 0.375 gives 0.38 |
| Analytics.Round2Monotone | server.py:484 | rounding keeps the order of its inputs |
| Analytics.Round2Exact | server.py:484 | a value with at most two decimals is unchanged by rounding |
| Analytics.Round2Within | server.py:530 | rounding a value inside bounds with two decimals stays inside them |
| Analytics.ToFivePointScale | server.py:483-484 | every raw score maps into [0, 5] |
| Analytics.ToFivePointScaleOfInt | server.py:483-484 | on integer scores the scale is exactly `(clamp(raw, -5, 5) + 5) / 2` |
| Analytics.PositiveIffAtLeastTwo | server.py:518 | a normalised score is at least 3.5 exactly when the integer raw score is at least 2 |
| Analytics.PunctualityIgnoresCase | server.py:487-489 | the punctuality classification does not depend on letter case |
| Analytics.Positives | server.py:515-518 | one positive flag per rating |
| Analytics.TrailingRun | server.py:518-522 | the current streak never exceeds the number of ratings |
| Analytics.BestRun | server.py:519-520 | the best streak never exceeds the number of ratings |
| Analytics.BestRunAtLeastTrailing | server.py:518-522 | the best streak is at least the current streak |
| Analytics.TrailingRunIsMaximalSuffix | server.py:518-522 | the last `current` ratings are all positive, and the rating before them is not |
| Analytics.TrailingRunIsLongest | server.py:518-522 | no all-positive block ending the sequence is longer than the current streak |
| Analytics.BestRunIsLongest | server.py:518-522 | no block of consecutive positive ratings is longer than the best streak |
| Analytics.BestRunIsAchieved | server.py:518-522 | some block of consecutive positive ratings has exactly the best streak's length |
| Analytics.StreakExample | server.py:508-522 | normalised scores 4, 4, 4, 2, 4 give a best streak of 3 and a current streak of 1 |
| Analytics.Scores | server.py:514 | one raw score per rating |
| Analytics.Punctuality | server.py:504 | the selected ratings are exactly the input's ratings whose category is about punctuality |
| Analytics.PunctualitySnoc | server.py:504 | one more rating joins the end of the selection exactly when it is about punctuality, so the selection keeps the input order |
| Analytics.RecentPunctuality | server.py:505 | the result is the last three punctuality ratings, or all of them when there are fewer than three |
| Analytics.LateTrendAppliedIff | server.py:505-506 | the late trend applies exactly when there are at least three punctuality ratings and the last three all score at most 0 |
| Analytics.WeightedScoreAt | server.py:524-525 | a rating's weighted score is twice its raw score when the late trend applies and it is about punctuality, and its raw score otherwise |
| Analytics.WeightedScores | server.py:524-525 | one weighted score per rating |
| Analytics.NormalizedScores | server.py:515-516 | one normalised score per rating |
| Analytics.WeightedSumSplit | server.py:524-527 | the weighted sum is the raw sum plus, when the trend applies, the punctuality ratings' sum once more |
| Analytics.StreakBonus | server.py:529 | the streak bonus lies in [0, 0.5] |
| Analytics.OverallScore | server.py:527-530 | the overall score lies in [0, 5] |
| Analytics.ConsistencyScore | server.py:532-534 | the consistency score lies in [0, 100] for every square-root function |
| Analytics.MetricsBounds | server.py:492-549 | overall score in [0, 5], consistency in [0, 100], and current streak ≤ best streak ≤ number of ratings |
| Analytics.LateTrendTextCases | server.py:536-540 | the trend text says "detected" exactly when the weighting applies, "monitored" exactly when it does not but a punctuality rating exists, and "no trend yet" exactly when there is none |
| Analytics.MetricsIgnoreOrder | server.py:503 | the metrics depend only on the ratings, not on the order they are given in, when no two share a (time, id) stamp |
| Analytics.MetricsStep | server.py:513-525 | one loop step appends the rating's weighted score, its normalised score and its positive flag |
| Analytics.ScoreLoop | server.py:508-525 | the loop's weighted scores, normalised scores, current streak and best streak equal their specification over the sorted ratings |
| Analytics.ScoreProfileMetrics | server.py:492-549 | the result is the metrics of the ratings; empty input gives all zeros, no weighting and "No punctuality trend yet"; the bounds hold |
| Ordering.SortByCorrect | server.py:503 | sorting by (time, id) gives a sorted permutation of the input |
| Ordering.SortedUnique | server.py:503 | two sorted permutations of one sequence with distinct stamps are equal |
| Ordering.SortByOfPermutation | server.py:503 | sorting permutations of one sequence with distinct stamps gives the same sequence |
| Ordering.StrLessTotal | server.py:568 | the string order compares any two different strings |
| Ordering.StrLessTransitive | server.py:568 | the string order is transitive |
| Ordering.StrLessIrreflexive | server.py:568 | no string is below itself |
| Ordering.InsertDistinctCorrect | server.py:568 | inserting into a strictly sorted list keeps it strictly sorted and adds exactly the element |
| Ordering.SortedDistinctCorrect | server.py:568 | `sorted(set(xs))` is strictly increasing and holds exactly the elements of `xs` |
| Records.WhereMembers | server.py:409 | a `WHERE` filter keeps exactly the rows of the table that satisfy it |
| Records.WhereIncreasing | server.py:424 | filtering keeps the ids in increasing order |
| Records.WhereWithoutWorker | server.py:432 | after deleting worker `w`'s rows, `w` has none left and every other worker keeps its rows |
| Records.WhereWithoutEntry | server.py:596 | deleting one entry of worker `w` leaves every other worker's rows as they were |
| Records.WhereWithoutMissingEntry | server.py:596 | deleting an entry that is not there changes nothing |
| Records.WhereWithoutPresentEntry | server.py:596 | deleting an entry that is there removes exactly one row |
| Records.ReparentShape | server.py:967-969 | re-pointing rows keeps their number and order, and changes only the owner of the source's rows |
| Records.ReparentOwnership | server.py:967-969 | after the update the source owns nothing, the target owns the sum of both workers' rows, and every other worker keeps its rows |
| Records.ReparentMoves | server.py:967-969 | each of the source's rows is now the target's, with its id and columns unchanged, and the target keeps its own rows |
| Records.FindProfile | server.py:961-962 | a profile is found exactly when its id is in the table, and it is that row |
| Records.RemoveProfileMembers | server.py:970 | deleting a profile keeps exactly the rows with another id |
| Records.RemoveProfileIds | server.py:1167 | deleting a profile removes exactly its id from the table |
| Records.RemoveProfileUnique | server.py:1167 | deleting a profile keeps the remaining identities unique |
| Records.TouchProfileAt | server.py:971 | touching a profile changes only its `updated_at`, in place |
| Records.TouchProfileValid | server.py:971 | touching a profile keeps the profile table valid and its ids |
| Records.ReplaceProfileAt | server.py:876-883 | an update replaces the row with the given id in place and leaves the others |
| Records.ReplaceProfileValid | server.py:876-883 | an update that clashes with no other profile keeps the table valid and its ids |
| Records.AppendProfileValid | server.py:865-872 | an insert under the next id that clashes with no profile keeps the table valid and adds exactly that id |
| Records.OwnIdentityNoClash | server.py:204-210 | a profile of a valid table never clashes with the others on its own unique columns |
| Records.WhereAppendOne | server.py:886-892 | an appended row joins its owner's rows at the end and leaves other workers' rows unchanged |
| Records.WhereNewRows | server.py:433-446 | the freshly inserted rows of worker `w` belong to `w` and to nobody else |
| Store.CascadeValid | server.py:1162-1170 | deleting a profile with its ratings, history and notes keeps all four tables valid and removes exactly its id |
| Store.DeleteEntryFacts | server.py:595-602 | deleting one entry keeps a child table valid, removes one row exactly when it existed, and keeps other workers' rows |
| Store.ReplaceRowsFacts | server.py:431-446 | replacing worker `w`'s rows keeps a child table valid; `w` then owns exactly the new rows and other workers keep theirs |
| Store.InsertHistoryRows | server.py:433-446 | the insert loop appends one history row per entry, numbered upwards from the next id |
| Store.InsertNoteRows | server.py:554-561 | the insert loop appends one note row per entry, numbered upwards from the next id |
| Store.MergeValid | server.py:967-971 | merging two different existing profiles keeps the four tables valid and removes only the source's id |
| Store.IdentityOfShape | server.py:841-843 | the stored identity is in normal form and its key is built from its own canonical name and employee id |
| Store.ResolvedOrFresh | server.py:857-884 | a save either creates a row under an unused id or updates a profile that exists |
| Store.SaveProfileValid | server.py:864-884 | an insert or update that clashes with nobody keeps the profile table valid |
| Store.SnapshotNoClash | server.py:1026-1033 | writing a profile's latest-rating columns never clashes with another profile |
| Store.LogRatingValid | server.py:886-900 | appending a rating and its history entry for an existing profile keeps the tables valid |
| Store.CategoriesMembers | server.py:568 | the category list holds exactly the categories of the ratings |
| Store.BuildProfileRows | server.py:564-588 | the view shows the profile row; its ratings and notes are sorted permutations of the worker's rows; its history is exactly the worker's entries, in increasing id order when the table is |
| Store.IncreasingStampsInjective | server.py:410 | rows with increasing ids never share a (time, id) stamp |
| Store.BuildProfileCategories | server.py:568 | `jobCategories` is strictly increasing and holds exactly the categories of the worker's ratings |
| Store.BuildProfileScore | server.py:590 | `overallScore` is the metrics' normalised score and lies in [0, 5] |
| Store.BuildProfileMetrics | server.py:569 | the analytics are those of the worker's ratings, whatever order they are stored in |
| Validation.ValidateRatingPayload | server.py:321-339 | the payload is accepted exactly when the name is long enough (if required), the score is a number in [-5, 5] and the reviewer is not blank; each error is reported exactly when the checks before it pass |
| Validation.HistoryEntryError | server.py:343-354 | an entry is accepted exactly when its category is not blank and its score is a number in [-5, 5]; only the two history errors occur |
| Validation.ValidateHistoryEntriesCorrect | server.py:342-356 | the entries are accepted exactly when each is valid, and an error is the first invalid entry's error |
| Validation.NoteError | server.py:360-363 | a note is accepted exactly when its text is not blank |
| Validation.ValidateProfileNotesCorrect | server.py:359-365 | the notes are accepted exactly when none is blank, and the only error is the missing text |
| Validation.ValidateProfilePayloadCorrect | server.py:368-391 | the payload is accepted exactly when the trimmed name has two characters, both lists are arrays or absent, and every note and history entry is valid; a notes error wins over a history error |
| Validation.CriterionError | server.py:311-316 | a criterion is accepted exactly when it is not blank and, if criteria are defined, is one of them up to case |
| Validation.FirstCriterionError | server.py:311-318 | the criteria are accepted exactly when each one is |
| Validation.AllowedValuesCorrect | server.py:297-318 | the values are accepted exactly when the category is allowed, the criteria form an array or are absent, and each criterion is accepted; the category error is reported exactly when the category is not allowed |
| Validation.FirstCriterionErrorIsFirst | server.py:311-316 | an error is that of the first failing criterion; every criterion before it is accepted |
| Validation.FirstCriterionNeverCategory | server.py:311-316 | a criteria error is a missing or a not-allowed criterion |
| Validation.LoadAdminList | server.py:240-261 | without a stored array the default is returned; otherwise the loop's result is the de-duplication of the trimmed items |
| Validation.DedupDistinct | server.py:253-261 | no two kept texts are equal up to case |
| Validation.DedupCovers | server.py:253-261 | every non-blank text is kept up to case |
| Validation.DedupSubsequence | server.py:253-261 | the kept texts keep the order of their first occurrence: the result is a subsequence of the trimmed items |
| Validation.DedupKeepsFirst | server.py:253-261 | every kept text is non-blank and is the first text with its lower-cased form |
| Validation.AdminListProperties | server.py:253-261 | the loaded list is case-insensitively distinct, keeps the first spelling, has no blank entry and represents every non-blank item |
| Store.ProfileStore.constructor | server.py:49-118 | an empty database whose id counters start at 1 satisfies the constraints |
| Store.ProfileStore.DeleteRating | server.py:595-597 | returns true exactly when the (entry id, worker id) row existed; only that row is removed; other workers' ratings and all other tables are unchanged |
| Store.ProfileStore.DeleteProfileNote | server.py:600-602 | the same as `DeleteRating`, on the notes table |
| Store.ProfileStore.ReplaceProfileHistory | server.py:431-446 | the worker's history becomes exactly the new rows; other workers' history and the other tables are unchanged; the constraints hold |
| Store.ProfileStore.ReplaceProfileNotes | server.py:552-561 | the worker's notes become exactly the new rows; other workers' notes and the other tables are unchanged; the constraints hold |
| Store.ProfileStore.DeleteProfile | server.py:1162-1170 | reports whether the profile existed; if so, removes it with all its ratings, history and notes; otherwise nothing changes |
| Store.ProfileStore.ClearAll | server.py:1150-1155 | all four tables become empty; the id counters keep counting |
| Store.ProfileStore.Merge | server.py:951-971 | missing, zero or equal ids give 400, a missing profile gives 404, both with nothing changed; the merge succeeds exactly when both ids are nonzero, distinct and exist, and then the source's rows move to the target, the source is deleted and the target touched |
| Store.ProfileStore.AddRating | server.py:981-1033 | validation, then 404 for an unknown profile, then the admin-defined values; it succeeds exactly when all three pass, and then one rating and one history entry are appended and the profile's latest-rating columns are set |
| Store.ProfileStore.WriteProfile | server.py:864-884 | inserts the row under the next id or updates the row with its id, keeping the constraints |
| Store.ProfileStore.LogRating | server.py:886-900 | appends the rating and the history entry that logs it, under the next ids |
| Store.ProfileStore.SaveRating | server.py:857-906 | a write that would break a uniqueness constraint gives 409 with nothing changed; otherwise the resolved or new profile row is written and the rating is logged |
| Store.ProfileStore.SubmitRating | server.py:834-906 | validation errors come first with nothing changed; then the rating is saved under the identity built from the trimmed name and the normalised employee id, or refused with 409; it succeeds exactly when both validations pass and the write breaks no uniqueness constraint |
| Store.ProfileStore.SaveProfileRow | server.py:790-819 | the profile row is inserted or updated through identity resolution, or refused with 409 with nothing changed |
| Store.ProfileStore.CreateProfile | server.py:775-827 | validation first; it succeeds exactly when the payload is valid and the profile row breaks no uniqueness constraint, and then the row is saved, and the worker's history and notes become exactly the given entries; other workers' rows are unchanged; a conflict changes nothing |

## Left out

- HTTP routing, request parsing, response writing and status codes (`do_GET`, `do_POST`, `do_PUT`,
  `do_DELETE` plumbing). The model starts from already-extracted fields.
  - The field aliases (`name`/`workerName`, `historyEntries`/`history`,
    `profileNotes`/`notesTimeline`, `background`/`backgroundInfo`) are resolved before the model.
  - JSON `null` and an absent key are collapsed into one case.
- The `PUT /api/profiles/{id}` handler is not modelled as an operation. Its table updates compose the
  modelled ones: a row update, an optional logged rating, and the history and notes replacements.
  - When `logRating` is set, the history entry it appends is deleted right away by the history
    replacement that follows.
- The GET endpoints, the admin catalog and settings storage (`save_admin_list`, `save_admin_value`,
  `load_admin_value`), and the `POST /api/admin/catalog` normalisation. `load_admin_list` is modelled
  from the stored value on, with a missing row, malformed JSON and a non-array as three inputs that
  give the default.
- A `selectedCriteria` entry is given by its `criterion` text. An entry that is not an object, which
  makes the code raise, is not modelled. The same holds for a `historyEntries` or `profileNotes` entry
  that is not an object: `entry.get` raises in `validate_history_entries` and
  `validate_profile_notes`.
- Server-sent events, the subscriber list and its lock. These are concurrency and I/O.
- SQLite itself:
  - connections and `CREATE TABLE`;
  - the column probing and migration of old databases;
  - races between concurrent requests that surface as `IntegrityError`.
  - The uniqueness check is made sequentially, before the write.
- Wall-clock time (`now_iso`, `CURRENT_TIMESTAMP`) and datetime text formats. Timestamps are integers.
- Ordering:
  - The difference between SQL `datetime(rated_at)` ordering and Python string ordering of `ratedAt`
    is not modelled. Both are one (time, id) order.
  - The name-match query's `ORDER BY updated_at DESC` does not matter, since only a single match is
    used.
- Analytics.Round2: rounds the exact real value, with ties to the even hundredth. Python rounds the
  binary double nearest the value. So a half-way value that binary cannot represent exactly may
  round the other way in the program: 2.675 is stored just below the tie and gives 2.67.
- Analytics.ScoreProfileMetrics: proves the bounds of the overall and consistency scores, not their
  exact floating-point values. Scores are integers, `round(x, 2)` works on exact reals, and
  `math.sqrt` is an arbitrary function parameter.
- Fractional raw scores are not modelled: `float(score)` is an integer in the model. A score such as
  2.5 is outside the model.
  - So is a NaN score. `float("nan")` parses, and both range comparisons are false for it. So
    `validate_rating_payload` and `validate_history_entries` accept it, but the integer score field
    cannot express it.
- Unicode whitespace and Unicode case mapping are not modelled. Only ASCII whitespace and ASCII
  letters are normalised.
- `str(item or '')` on non-string JSON values (numbers, booleans) in lists is not modelled. Items are
  texts already.
- Error message texts are abstracted to error constructors. The category error carries the allowed
  job types it lists.
