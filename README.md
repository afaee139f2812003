# challenges-dcc reporting scripts, modelled in Dafny

This project models the deterministic logic inside two maintenance scripts of a
DREAM challenge data-coordination repository, and proves properties of it.

- **`extract_exec_time.py`** estimates how long a submission's Docker step ran. It
  reads the submission's TOIL log text and takes the first `Issued job … run_docker.cwl`
  line and the first `Job ended … run_docker.cwl` line. They are found by two
  regular expressions of the same shape, differing only in the marker. Each captures
  the `STDERR:` time stamp with its fraction cut to six digits. The two captured stamps go through `datetime.fromisoformat`, and the result is
  their difference, or the string `run_docker step not found` when a marker is missing.
  The same script finds where a submission's log archive lives: the folder named by the
  first `…SubmissionFolder` annotation, and the file `<id>_logs.zip`.
- **`print_synapse_reports.py`** prints, for each challenge, a tab-separated line:
  challenge id, name, participant team, number of distinct participants, and number of
  accepted submissions. It then prints the number of distinct registrants over all
  challenges and the total number of submissions. Submissions are counted per kept
  evaluation queue with a SQL-like query built from optional date bounds. Queues whose
  names mention `test`, `write-up` or `uw` in any case are skipped.

Modules:

| module | file | what it holds |
|---|---|---|
| `Wrappers` | `wrappers.dfy` | `Option`, `Result` |
| `Decimal` | `decimal.dfy` | digit runs, `int(...)` of digits, zero padding, `str(n)` |
| `Text` | `text.dfy` | prefix/suffix tests, `find`, `sep.join` and its inverse `split`, `c * n` |
| `PyDateTime` | `py_datetime.dfy` | Python's proleptic Gregorian ordinal, `fromisoformat` on the captured shape, `isoformat`, datetime subtraction in microseconds |
| `LogPattern` | `log_pattern.dfy` | the TOIL log pattern as a match at one position, described by where its parts lie; `re.search` as the leftmost such position |
| `ExtractExecTime` | `extract_exec_time.dfy` | `calc_exec_time`, the folder and filename choice of `find_log_file` |
| `SynapseReports` | `synapse_reports.dfy` | the evaluation filter, the query text, the counting loop, the report loop |

The pattern `STDERR: ([\d\-T:]+?\.\d{6})\d+?Z.*?<marker>.*?run_docker\.cwl` is not compiled
by a general regular-expression engine. `LogPattern.Shape` states what a match at the
start of a text is:
- `STDERR: `;
- at least one stamp character, then a dot at `a`;
- at least seven digits, then `Z` at `b`;
- the marker at `j` and `run_docker.cwl` at `k`, with no newline from `b` to `k`.

The capture is unique because the dot is not a stamp character and `Z` is not a
digit, so the stamp run can only end at the first dot and the digit run at the first
non-digit: group 1 is everything from index 8 up to the sixth fraction digit. `MatchAt` computes this in three stages: the first dot, the
first non-digit after it, and a line-bounded search for the marker then `run_docker.cwl`.
The lemmas show that `MatchAt` succeeds exactly on texts that have a `Shape`.
`Search` is `re.search`: it tries every position from the left. A whole match lies
on one line (`MatchIsOneLine`).

The remote platform (`restGET`, `teams._get_team_set`, `evaluation_queue_query`) and
`convert_to_epoch` are the fields of a `Platform` value: functions from the request to
the answer.

## Model

| member | source | states |
|---|---|---|
| `ExtractExecTime.CalcExecTime` | extract_exec_time.py:80-103 | only the sentinel `run_docker step not found` is ever returned as text, and it is returned exactly when the start search fails, or when the start stamp parses and the end search fails; an elapsed time is returned exactly when both searches hit and both stamps parse |
| `ExtractExecTime.NoStartMarkerGivesSentinel` | extract_exec_time.py:90-100 | when the start pattern matches nowhere in the log, the result is the sentinel |
| `ExtractExecTime.StartHitAt` | extract_exec_time.py:91-93 | the start stamp is group 1 of the leftmost position where the start pattern matches |
| `ExtractExecTime.NoEndMarkerGivesSentinel` | extract_exec_time.py:95-100 | a start match with a valid stamp, and no end match anywhere, gives the sentinel |
| `ExtractExecTime.ElapsedIsEndMinusStart` | extract_exec_time.py:102-103 | with both stamps found and valid, the result is end minus start in microseconds; it is non-negative exactly when the end is not earlier, and zero exactly when the two are equal |
| `ExtractExecTime.InvalidStartStampRaises` | extract_exec_time.py:94-99 | an invalid start stamp escapes as ValueError instead of the sentinel, since only AttributeError is caught |
| `ExtractExecTime.InvalidEndStampRaises` | extract_exec_time.py:95-99 | with a valid start stamp, an invalid end stamp escapes as ValueError instead of the sentinel, since only AttributeError is caught |
| `ExtractExecTime.FolderIds` | extract_exec_time.py:61-65 | the comprehension keeps at most as many values as there are annotations |
| `ExtractExecTime.FolderIdsFirst` | extract_exec_time.py:61-65 | the comprehension is empty exactly when no key ends in `SubmissionFolder`; otherwise its head is the value of the first such annotation |
| `ExtractExecTime.FindLogFile` | extract_exec_time.py:59-67 | the folder is the value of the first `SubmissionFolder` annotation, the filename is `<id>_logs`, and the archive looked up is `<id>_logs.zip`; IndexError exactly when no key has the suffix |
| `LogPattern.Run` | extract_exec_time.py:92 | the longest run of characters with a property from a position: all have it, and the next one does not |
| `LogPattern.LineEnd` | extract_exec_time.py:92 | the end of the current line: no newline before it, and it is a newline or the end of the text |
| `LogPattern.DotAt` | extract_exec_time.py:92 | a dot is reported only after `STDERR: ` and one or more stamp characters (`[\d\-T:]+?`) |
| `LogPattern.DotAtComplete` | extract_exec_time.py:92 | that dot is the one the lazy stamp group stops at, whenever one exists |
| `LogPattern.ZAt` | extract_exec_time.py:92 | the `Z` is reported only after at least seven fraction digits (`\.\d{6}\d+?Z`) |
| `LogPattern.ZAtComplete` | extract_exec_time.py:92 | the `Z` after the fraction digits is always found |
| `LogPattern.OccursInLine` | extract_exec_time.py:92 | a text occurs in a line prefix exactly when it occurs in the whole text and ends inside the prefix |
| `LogPattern.TailMatchesSound` | extract_exec_time.py:92 | a successful tail search is a marker followed by `run_docker.cwl` on the same line |
| `LogPattern.TailMatchesComplete` | extract_exec_time.py:92 | any marker followed by `run_docker.cwl` without a newline in between is found |
| `LogPattern.TailWithinLine` | extract_exec_time.py:92 | from the `Z` to the end of `run_docker.cwl` there is no newline |
| `LogPattern.MatchAtSound` | extract_exec_time.py:91-93 | every success of the matcher is a match of the pattern, and its capture is the stamp up to the sixth fraction digit |
| `LogPattern.MatchAtComplete` | extract_exec_time.py:91-93 | every match of the pattern is found by the matcher, with that capture |
| `LogPattern.MatchIsOneLine` | extract_exec_time.py:92 | a whole match lies on one line |
| `LogPattern.ShapeCapture` | extract_exec_time.py:92 | group 1 of a match is stamp characters, a dot and exactly six digits |
| `LogPattern.CaptureForm` | extract_exec_time.py:92 | the same, for every capture the matcher returns |
| `LogPattern.StampOfConcat` | extract_exec_time.py:92 | `STDERR: <t>.<f>Z…` with stamp characters `t` and seven or more digits `f` has its dot and its `Z` where the pattern expects them |
| `LogPattern.TailOfConcat` | extract_exec_time.py:92 | a marker and `run_docker.cwl` after the `Z`, with no newline in between, form the tail of a match |
| `LogPattern.FractionTruncated` | extract_exec_time.py:92 | on such a line the capture is `<t>.` followed by the first six fraction digits |
| `LogPattern.SixDigitFractionRejected` | extract_exec_time.py:92 | a stamp with exactly six fraction digits before `Z` does not match |
| `LogPattern.ScanFromFirst` | extract_exec_time.py:91 | the scan returns the first position where the attempt succeeds, and no position when it fails everywhere |
| `LogPattern.SearchIsLeftmostMatch` | extract_exec_time.py:91-97 | `re.search` finds nothing exactly when the pattern matches at no position; otherwise it returns the leftmost matching position and its group 1 |
| `PyDateTime.FromIsoFormat` | extract_exec_time.py:94 | every datetime accepted has its fields in the constructor's ranges |
| `PyDateTime.FromIsoFormatOfIsoFormat` | extract_exec_time.py:94 | every valid datetime is read back from its ISO text, whatever the date-time separator |
| `PyDateTime.IsoFormatOfFromIsoFormat` | extract_exec_time.py:94 | every text accepted is the ISO text of the datetime returned |
| `PyDateTime.DaysBeforeYearStep` | extract_exec_time.py:102 | the closed-form count of days before a year grows by that year's length, 366 in leap years |
| `PyDateTime.DaysBeforeYearMonotone` | extract_exec_time.py:102 | a later year starts after an earlier year has ended |
| `PyDateTime.DaysBeforeMonthStep` | extract_exec_time.py:102 | the month table adds up the month lengths, and the year ends after December |
| `PyDateTime.DaysBeforeMonthMonotone` | extract_exec_time.py:102 | a later month starts after an earlier month of the same year has ended |
| `PyDateTime.DayOfYearBound` | extract_exec_time.py:102 | a valid date lies inside its year |
| `PyDateTime.OrdinalNextDay` | extract_exec_time.py:102 | the next calendar day has the next day ordinal |
| `PyDateTime.OrdinalMonotone` | extract_exec_time.py:102 | earlier dates have smaller ordinals |
| `PyDateTime.SubtractSign` | extract_exec_time.py:102 | a difference is positive, zero or negative exactly when the first datetime is later than, equal to or earlier than the second |
| `PyDateTime.SubtractNextDay` | extract_exec_time.py:102 | the same clock time on the next day is 86 400 000 000 microseconds later |
| `Decimal.Value` | extract_exec_time.py:94 | a run of `n` digits denotes a number below `10^n` |
| `Decimal.Pad` | extract_exec_time.py:94 | inverse of the field reading in `fromisoformat` (the zero padding `isoformat` writes): exactly `width` digits |
| `Decimal.PadValue` | extract_exec_time.py:94 | a number that fits is read back from its padded digits |
| `Decimal.ValuePad` | extract_exec_time.py:94 | a digit run is written back unchanged from its value |
| `Decimal.NatToString` | print_synapse_reports.py:116-117 | `str(n)` of a count is digits denoting `n`, without leading zeros |
| `Decimal.IntToString` | print_synapse_reports.py:88 | `str(n)` of an epoch has a minus sign exactly for negative numbers, followed by the digits of the magnitude |
| `Decimal.IntToStringInjective` | print_synapse_reports.py:88-90 | different epochs give different texts |
| `Text.IndexOf` | extract_exec_time.py:92 | the search returns the leftmost occurrence at or after the start, or none when there is none |
| `Text.Split` | print_synapse_reports.py:115 | inverse of the tab join on this line: splitting always gives at least one field |
| `Text.SplitJoin` | print_synapse_reports.py:115 | splitting a tab-joined line gives the fields back when none contains a tab |
| `Text.Repeat` | print_synapse_reports.py:119 | `"=" * 20` is twenty `=` characters |
| `SynapseReports.EvalIds` | print_synapse_reports.py:60-61 | the filter never keeps more ids than there are queues |
| `SynapseReports.EvalIdsAppend` | print_synapse_reports.py:60-61 | the filter works queue by queue and keeps the listing order |
| `SynapseReports.EvalIdsMembership` | print_synapse_reports.py:60-61 | an id is kept exactly when a queue with that id has a name mentioning none of `test`, `write-up`, `uw`, ignoring case |
| `SynapseReports.GetChallengeInfo` | print_synapse_reports.py:42-63 | the evaluation ids are the filtered queue list and the team is the challenge's participant team |
| `SynapseReports.ConvertBound` | print_synapse_reports.py:79-82 | a bound is converted exactly when it is given and not empty |
| `SynapseReports.ClauseText` | print_synapse_reports.py:87-90 | a clause starts with a space, carries its operator at a fixed place, and ends with `str` of the epoch |
| `SynapseReports.AppendClause` | print_synapse_reports.py:87-90 | `if bound: query += clause` extends the query by the clause of a truthy bound, and by nothing otherwise |
| `SynapseReports.QueryExtendsBase` | print_synapse_reports.py:86-90 | every query starts with `SELECT * FROM evaluation_<id> WHERE status == 'ACCEPTED'`, and is exactly that when neither bound is truthy (an epoch of 0 adds no clause) |
| `SynapseReports.IntToStringIsNumberText` | print_synapse_reports.py:88 | `str` of an epoch holds only digits and minus signs |
| `SynapseReports.NumberThenClause` | print_synapse_reports.py:88-90 | a number followed by nothing or by a clause splits one way only |
| `SynapseReports.ClausesWithStart` | print_synapse_reports.py:87-90 | with a truthy start the clauses begin with the `>=` clause carrying the start epoch |
| `SynapseReports.ClausesWithoutStart` | print_synapse_reports.py:87-90 | without one they are the `<=` clause alone, or nothing |
| `SynapseReports.ClausesDetermineBounds` | print_synapse_reports.py:87-90 | the clause text determines which bounds are truthy and their values |
| `SynapseReports.QueryDeterminesBounds` | print_synapse_reports.py:86-90 | two queries for a queue are equal only when they carry the same truthy bounds |
| `SynapseReports.TallyAppend` | print_synapse_reports.py:84-93 | the count over two lists of queues is the sum of the two counts |
| `SynapseReports.TallyRemove` | print_synapse_reports.py:84-93 | taking a queue out of the list takes its rows out of the count |
| `SynapseReports.TallyPermutation` | print_synapse_reports.py:84-93 | the count does not depend on the order of the queues |
| `SynapseReports.TallyStep` | print_synapse_reports.py:91-92 | one more queue adds the rows its query yields |
| `SynapseReports.CountSubmissions` | print_synapse_reports.py:72-93 | the loop returns the sum, over the queues, of the number of rows each query yields (0 for no queues) |
| `SynapseReports.OwnerIdsBound` | print_synapse_reports.py:103-104 | a team has at most as many distinct participants as member records |
| `SynapseReports.ChallengeLines` | print_synapse_reports.py:101-117 | one line per challenge |
| `SynapseReports.AccumulatorsStep` | print_synapse_reports.py:107-117 | one more challenge adds its participants to the union, its submissions to the total, and its line to the output |
| `SynapseReports.PrintReport` | print_synapse_reports.py:96-121 | the loop prints exactly the report: the challenge lines, the rule, the size of the union of participants, and the submission total |
| `SynapseReports.ChallengeLinesAt` | print_synapse_reports.py:101-117 | the line at position `i` is challenge `i`'s line |
| `SynapseReports.ReportLinesInOrder` | print_synapse_reports.py:101-119 | the report has one line per challenge in input order, then the rule, then the two totals |
| `SynapseReports.ChallengeLineFields` | print_synapse_reports.py:115-117 | a challenge line splits at its tabs into id, name, team, participant count and submission count, when id, name and team hold no tab |
| `SynapseReports.UniqueUsersMembership` | print_synapse_reports.py:99-107 | a user is a registrant exactly when they take part in one of the challenges |
| `SynapseReports.RegistrantsOfTwo` | print_synapse_reports.py:107-120 | a member shared by two challenges is counted once: the total is the sum of the two counts less the shared members |
| `SynapseReports.TotalSubmissionsIsTallyOfAllQueues` | print_synapse_reports.py:110-121 | the submission total is the row count over all kept queues of all the challenges together |

## Left out

- The remote calls (`restGET`, `teams._get_team_set`, `evaluation_queue_query`, `findEntityId`, `syn.get`, login, `getTeam`/`getUserProfile`, `getSubmissionStatus`, `tableQuery`) are not modelled. They are network wrappers over libraries outside the repository. Their answers are the fields of `Platform`, or, for `find_log_file`, the returned `LogLocation` stops before the lookup.
- File I/O is left out: download, `unzip_file`, `open`/`read`, `os.remove`, CSV output. `calc_exec_time` is modelled on the log text rather than on a path. Newline translation on reading is not modelled.
- `print` is modelled as the list of lines `print_report` writes.
- The command-line parsing and both `main` functions are not modelled, including the dry-run `break` of `extract_exec_time.py`. They are plumbing around remote calls.
- `convert_to_epoch` depends on the machine's time zone and on float arithmetic. It is the opaque `Platform.toEpoch`, and its `strptime` errors are not modelled.
- `timedelta.total_seconds()` returns a float. The model keeps the same quantity as whole microseconds; the division by 10^6 and its rounding are not modelled.
- `generate_registrant_plots.py` is not part of this model: it is remote lookups, a pandas table and plotting.
- `\d` in a Python `str` pattern matches every Unicode decimal digit. The model matches ASCII digits only.
- `datetime.fromisoformat` accepts several shapes, and the accepted set depends on the Python version. The model accepts the one shape Python 3.7–3.10 document for a date-time with six fraction digits: `YYYY-MM-DD?HH:MM:SS.ffffff` with any separator. Any other captured text (a stamp whose date part is not ten characters, say) is treated as ValueError.
- JSON fields that are missing or `null` are not modelled. This covers a missing `name`, or a non-string `id` in the tab join, where Python would raise. Every record field is a string.
- Whether adding a date bound can only lower the count depends on what the server returns for a query. It is not a property of these scripts and is not stated.
- `ExtractExecTime.NoEndMarkerGivesSentinel` requires the start stamp to be valid. With an invalid start stamp and no end marker, the code raises ValueError rather than returning the sentinel, because the start stamp is parsed before the end search (`InvalidStartStampRaises`).
