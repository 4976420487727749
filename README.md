# Okta session analyzer — a Dafny model

This project models the analysis core of `okta_session_analyzer.py`, a batch
pass over an exported Okta System Log that flags anomalous sessions. The model
covers five parts:

- **Session bucketing** (`SessionBucketing`). The schema check comes first and
  raises for the first missing required column. Records without a real
  session id (missing, empty or `"unknown"`) or without a country (missing or
  empty) are dropped. The rest are grouped by session id, and each group keeps
  the log's order. `BucketSessions` is a loop that appends each kept record to
  its session's list. It is proved equal to the grouping `Buckets`, and lemmas
  prove that grouping is a partition.
- **Fast travel** (`FastTravel`). `AnalyzeSessionFastTravel` walks the adjacent
  pairs `(i, i + 1)` of a session. It skips pairs with zero elapsed time and
  reports a pair when distance / hours is strictly greater than the threshold.
  The great-circle distance is a parameter `dist`, taking
  `(lon1, lat1, lon2, lat2)` in the order the source's haversine helper does.
- **High-frequency events** (`HighFrequency`). This part counts the records of
  one event type. It returns at most one `(session id, count)` pair, and
  returns one exactly when the count reaches the threshold (inclusive).
- **Orchestration** (`SessionAnalysis`). For each session, `SessionFindings`
  makes the decisions that the source prints. The sharing finding is raised
  when there is more than one distinct user agent and more than one distinct
  IP address. Push fatigue is reported together with the denial count, which
  is counted with threshold 0. Unauthorized access attempts are reported with
  their count. `AnalyzeUserSessions` buckets the log and builds one report per
  session.
- **IdP configuration changes** (`ConfigChanges`). This pass runs over the
  whole log. It keeps the five `system.idp.lifecycle.*` events in log order
  and reports the uuid, display message and target display name of each.

`Wrappers`, `Records` and `Filtering` hold shared definitions:
- `Option` and `Result`;
- the event record, where a missing CSV cell is `None`;
- the order-preserving selection `Filter`, which stands for pandas' boolean-mask
  indexing.

Two behaviours of the code are easy to misread, and the model follows the
code as written:

- Pair order in the fast-travel detector: the session's frame is sorted by
  timestamp (okta_session_analyzer.py:54), but rows are then read by label
  with `df.at[i, …]` (:58-60). The labels are the positions the records had in
  their bucket, so pairs follow bucket (log) order, and the model forms them
  in that order.
- Elapsed time: the code uses `(time2 - time1).seconds` (:64). That is the
  sub-day seconds component, `(t2 - t1) mod 86400`, and it is never negative.
  So a pair that is a whole number of days apart counts as zero elapsed time
  and is skipped. A pair out of time order gets a positive elapsed time.
  `DeltaSeconds` models this, and `WholeDayPairNeverReported` states its
  consequence.

The record identifier carried by findings is the log's `uuid` column
(:58-59, :138).

## Model

| member | source | states |
|---|---|---|
| `SessionBucketing.FirstMissingColumn` | okta_session_analyzer.py:22-25 | the required columns are checked in order: no error iff every one is present, otherwise the position of the first absent column, all earlier ones present |
| `SessionBucketing.BucketSessions` | okta_session_analyzer.py:17-48 | fails iff the session-id or country column is absent (every other column is assumed present), with the session-id column reported first, regardless of the records; otherwise returns exactly the grouping `Buckets` of the records |
| `SessionBucketing.BucketsSnoc` | okta_session_analyzer.py:37-46 | the grouping that `groupby` and the loop build changes, for one more record, only by appending a usable record to the end of its own session's list (creating it if new); the per-record loop of `BucketSessions` relies on this step |
| `SessionBucketing.BucketMembership` | okta_session_analyzer.py:28-34 | a record of the log lies in some bucket iff its session id is present, non-empty and not "unknown" and its country is present and non-empty; then it lies in the bucket of its own session id and in no other |
| `SessionBucketing.BucketKeys` | okta_session_analyzer.py:37-46 | the keys are exactly the session ids of the kept records, and every bucket is non-empty |
| `SessionBucketing.BucketContents` | okta_session_analyzer.py:37-46 | a bucket holds every copy of every kept record of its session and nothing else, as a subsequence of the log (original relative order) |
| `Filtering.Filter` | okta_session_analyzer.py:28-34 | mask selection returns no more rows than it is given, and each returned row is an input row satisfying the mask |
| `Filtering.FilterMultiplicity` | okta_session_analyzer.py:82 | mask selection keeps every copy of a matching row and no copy of another |
| `Filtering.FilterIsSubsequence` | okta_session_analyzer.py:135 | mask selection keeps rows in their original relative order (an increasing index embedding exists) |
| `Filtering.FilterLengthUnderPermutation` | okta_session_analyzer.py:79-85 | the number of selected rows does not depend on the order of the rows |
| `FastTravel.DeltaSeconds` | okta_session_analyzer.py:64 | the timedelta's seconds component lies in [0, 86400) and differs from t2 - t1 by a whole number of days |
| `FastTravel.ElapsedHours` | okta_session_analyzer.py:64-65 | elapsed hours lie in [0, 24) and are zero exactly when the seconds component is zero |
| `FastTravel.AnalyzeSessionFastTravel` | okta_session_analyzer.py:50-72 | a session of fewer than two records yields nothing; at most one instance per adjacent pair; the loop's output equals the pair-by-pair scan `FastTravelFindings` |
| `FastTravel.PairFindingFlagged` | okta_session_analyzer.py:62-70 | one loop step emits one instance for pair i exactly when the elapsed time is non-zero and the speed strictly exceeds the threshold, else nothing |
| `FastTravel.ScanSound` | okta_session_analyzer.py:56-70 | after n steps every instance is about a flagged pair (i, i + 1) with i < n, carries that pair's uuids, distance and speed, and pairs appear in strictly increasing order |
| `FastTravel.ScanComplete` | okta_session_analyzer.py:56-70 | after n steps, pair i < n has an instance iff it is flagged |
| `FastTravel.FastTravelFindingsSound` | okta_session_analyzer.py:56-70 | every reported instance refers to indices (i, i + 1) with i + 1 < n, is flagged, carries the session id, both uuids, the distance and distance / hours; instances come in increasing i |
| `FastTravel.FastTravelFlaggedIff` | okta_session_analyzer.py:64-70 | pair (i, i + 1) is reported iff its elapsed time is non-zero and distance / elapsed hours > threshold (strict) |
| `FastTravel.WholeDayPairNeverReported` | okta_session_analyzer.py:64-66 | a pair whose timestamps are equal or a whole number of days apart is never reported, whatever the distance |
| `HighFrequency.CountEventMatches` | okta_session_analyzer.py:82-85 | the count is at most the number of records, zero iff no record has the event type, and all of them iff every record has it |
| `HighFrequency.CountEventAppend` | okta_session_analyzer.py:82-85 | the count of a concatenation is the sum of the counts |
| `HighFrequency.CountEventPermutation` | okta_session_analyzer.py:79-85 | the count is invariant under any permutation of the records (sorting first changes nothing) |
| `HighFrequency.DetectHighFrequencyEvent` | okta_session_analyzer.py:74-90 | the result has at most one element; it has one iff count >= threshold (inclusive); with threshold 0 it always has one; that element is (session id, count) |
| `HighFrequency.DetectHighFrequencyEventPermutation` | okta_session_analyzer.py:77-90 | the detector's result is the same for every ordering of the session's records |
| `SessionAnalysis.SeveralDistinctIff` | okta_session_analyzer.py:99-100 | a field has more than one distinct value over a session iff two of its records disagree on it |
| `SessionAnalysis.SessionFindings` | okta_session_analyzer.py:99-122 | the sharing finding is raised iff two records differ in user agent and two differ in IP address, and it carries exactly the values present; push fatigue is present iff the push count reaches its threshold and then carries the push and denial counts; the unauthorized-access finding is present iff that count reaches its threshold and carries it; fast-travel instances are passed through |
| `SessionAnalysis.AnalyzeUserSessions` | okta_session_analyzer.py:93-122 | fails with the bucketing error iff bucketing fails; otherwise one report per bucketed session id, each the session's `AnalyzeSession` report |
| `ConfigChanges.IdpConfigChangeEvents` | okta_session_analyzer.py:124-135 | the selected records are exactly the log's lifecycle events (one of the five `system.idp.lifecycle.*` types), every copy of each, as a subsequence of the log, with no threshold |
| `ConfigChanges.AnalyzeIdpConfigChanges` | okta_session_analyzer.py:137-141 | one finding per selected event, in order, carrying that event's uuid, display message and target display name |
| `ConfigChanges.NoLifecycleEventsNoFindings` | okta_session_analyzer.py:135-141 | a log without lifecycle events yields no finding |

## Left out

- `haversine` (floating-point trigonometry) is not modelled. The distance is the parameter `dist`, and no property of it (non-negativity, symmetry, accuracy) is assumed or proved.
- Reading the CSV (`pd.read_csv`, `parse_dates`), `pd.to_datetime` and building DataFrames are I/O and library plumbing. The log is a parameter `records`, and the set of column names it has is a parameter `columns`. `analyze_okta_config_changes` only reads the file and calls `analyze_idp_config_changes`, so it is covered by `ConfigChanges.AnalyzeIdpConfigChanges`.
- Timestamps are whole seconds. Sub-second parts are not modelled.
- Missing timestamps are not modelled. In the source a missing cell becomes NaT and makes the speed NaN, so such a pair is never reported.
- Unparsable timestamps are not modelled. In the source `read_csv` leaves a column it cannot parse as strings. `pd.to_datetime` (:53, :78) then raises at the first session, in key order, that holds an unparsable timestamp, and that aborts the run. Records dropped at :28-34 never reach :53/:78, so their timestamps raise nothing. The findings of earlier sessions are already printed by then.
- Coordinates are always present, as reals. A missing coordinate (NaN) would likewise never be reported in the source.
- Floating-point arithmetic is modelled as exact real arithmetic.
- The printing of findings is not modelled: findings are returned as values.
- The source prints sessions in the sorted key order of `groupby`. `AnalyzeUserSessions` returns a map from session id to report, so that order is not modelled.
- `main` and argparse are CLI wiring and are not modelled. `SessionAnalysis.DefaultConfig` holds their defaults (100 km/h, 3, 1).
- Timestamp sorting in `detect_high_frequency_event` is not modelled. It cannot change the count, which is what `HighFrequency.CountEventPermutation` states.
- Timestamp sorting in `analyze_session_fast_travel` is not modelled either. Rows are read by their original label, so the sort cannot change which records form a pair.
- The source fails on an empty session, because it has no `timestamp` column. The model's detectors are total. Buckets are never empty (`SessionBucketing.BucketKeys`), so the orchestrator never reaches that case.
- A missing user agent or IP address is one value, `None`. In Python, separate NaN objects may count as distinct set elements, and joining a NaN while printing raises an error. Neither is modelled.
- Session ids that pandas would read as numbers are not modelled: ids are strings.
- Running the analysis twice gives the same result. This holds by construction: every member is deterministic, and `AnalyzeUserSessions`'s result is fully determined by its postcondition.
- SessionBucketing.BucketSessions: the model checks only the two required columns (:22-25). Every other column the code reads is assumed present, because `Record` always has all its fields. In the source a missing column raises instead:
  - without `timestamp`, `read_csv` raises at :19, before the check at :22-25;
  - without `client.user_agent.raw_user_agent` or `client.ip_address`, the first session in key order raises KeyError at :99-100;
  - without `event_type`, the first session in key order raises KeyError at :82;
  - without `uuid` or the latitude/longitude columns, the first session with at least two records raises KeyError at :58-59, because those reads sit inside the pair loop at :56; if every session has one record, these columns are never read;
  - without `event_type`, the configuration-change pass raises KeyError at :135;
  - without `uuid`, `display_message` or `target0.display_name`, the configuration-change pass raises KeyError at :138-140, but only when at least one lifecycle event is present, because those reads sit inside the loop at :137.
