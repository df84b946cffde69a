# dnsping core in Dafny

dnsping measures DNS resolution latency for the top-ranked domains of a
ranked list (`rank,name` lines, as in Alexa's top-sites file). Each round
probes every domain once. A probe queries the local resolver for a random
label prepended to the domain, so that no cached answer can be used. Each
answered probe is stored in a MySQL database:

- one `timeseries` row per sample;
- one `stats` row per domain, holding the mean, standard deviation, probe
  count and first/last timestamps.

A companion program, querydb, prints both tables. It reports all domains,
the domains of a ranked list, or the single domain given with `-D`.

The model consists of these modules:

- `Probe` (probe.dfy): builds the random query name and gives the outcome
  of one probe. `rand()` becomes a supplied sequence of naturals. The
  resolver's answer becomes an abstract `Resolution`.
- `Loader` (loader.dfy): the ranked-list reading loop. `getline` is
  modelled as the C++ library behaves, including the end-of-file flag.
- `Persistence` (persistence.dfy): the two tables as an abstract `Store`,
  with `init_stats` and `updateDB` as transitions on it. The stats table
  is a map keyed by domain, standing for its primary key.
- `Driver` (driver.dfy): the probing rounds of dnsping's `main`. It covers
  the `count`/`interval` defaults, the "for ever" announcement and the
  sleep between rounds.
- `Report` (report.dfy): querydb's choice of filter and the rows each
  filter selects.
- `Wrappers` (wrappers.dfy): `Option` and `Result`.

The model follows the code as written:

- The loop tests end of file before its two `getline` calls. End of file
  is only set once a read runs into the end of input.
- So a list whose last line ends in a newline yields one extra, empty,
  domain name whenever fewer than `topN` lines are present.
- An empty file yields exactly one empty name.
- As a result, the "found no domains" exit (`domainsNum == 0`) can never be
  taken once the file is open. `Loader.OpenedFileNeverEmpty` proves this,
  and `Loader.ReadTerminated` describes the extra entry exactly.

A count below -1 is announced as "for ever". The loop condition only
accepts -1 as "for ever", so such a count runs no round at all
(`Driver.NegativeCountAnnouncedButIdle`).

## Model

| member | source | states |
|---|---|---|
| Probe.CharsetIsAlphanumeric | dnsping.cpp:66 | the label alphabet has 62 characters and a character is in it exactly when it is an ASCII letter or digit |
| Probe.LabelLength | dnsping.cpp:70 | whatever the random value, the label length lies between 6 and 12 |
| Probe.Label | dnsping.cpp:70-72 | the label is well formed (6 to 12 letters or digits); its length is 6 plus the first random value mod 7; character i is the alphabet entry at the next random value mod 62 |
| Probe.QueryName | dnsping.cpp:69-75 | the queried name ends with the domain, preceded by a dot, preceded by a well-formed label; its length is the domain's plus 7 to 13 |
| Probe.QueryNameSplits | dnsping.cpp:66-75 | splitting the query name at its first dot gives back exactly the label and the probed domain, since the label never contains a dot |
| Probe.LabelOfRandsFor | dnsping.cpp:66-72 | a well-formed label is given back by the generator when fed its length minus 6 followed by each character's position in the alphabet |
| Probe.EveryLabelReachable | dnsping.cpp:66-72 | every well-formed label is generated by some sequence of random values |
| Probe.Outcome | dnsping.cpp:81-101 | a probe yields a latency sample exactly when the resolver returns a packet, carrying that packet's query time and timestamp; an unreadable resolver configuration and a missing packet each yield their own failure |
| Probe.ProbeDomain | dnsping.cpp:69-101 | the name queried always splits back into the generated label and the probed domain, and the result is the resolver outcome's |
| Loader.EffectiveTopN | dnsping.cpp:322 | the entry cap is always positive: a positive `-n` is kept, anything else becomes 10 |
| Loader.GetlineSplitsInput | dnsping.cpp:339-340 | a `getline` at end of file leaves the stream and the target unchanged; otherwise the field read has no delimiter, and the input is the field, the delimiter and what is left, or the whole input when end of file is reached |
| Loader.GetlineField | dnsping.cpp:339-340 | a field ended by the delimiter is read whole, and the stream resumes right after the delimiter |
| Loader.GetlineLastField | dnsping.cpp:340 | a final field without a delimiter is read whole and sets end of file |
| Loader.ReadEntries | dnsping.cpp:336-343 | the loop reads at most `topN` names; it reads at least one when the stream has not hit end of file and the budget is positive; it reads none once end of file is set |
| Loader.ReadLines | dnsping.cpp:336-343 | reading complete lines followed by any text yields the lines' names in file order, cut at the budget; only a budget left over goes on into the following text |
| Loader.ReadTerminated | dnsping.cpp:336-343 | for a newline-terminated list: the first `budget` names when the list is long enough, otherwise all names followed by one empty name |
| Loader.ReadUnterminated | dnsping.cpp:336-343 | for a list whose last line has no newline: exactly the names, cut at the budget |
| Loader.ReadPastEnd | dnsping.cpp:338-342 | when the input is used up but end of file has not been seen, the loop runs once more and adds one empty name |
| Loader.LoadDomains | dnsping.cpp:313-349 | an unopenable file is the only way to get the file error; a loaded list has between 1 and the effective `topN` entries |
| Loader.OpenedFileNeverEmpty | dnsping.cpp:346-349 | whatever an opened file holds, loading succeeds, so the zero-domains exit is never taken |
| Loader.EmptyFileYieldsOneEmptyName | dnsping.cpp:336-349 | an empty file yields the single domain name "" |
| Persistence.InitStats | dnsping.cpp:169-188 | the time series is untouched; the stats keys become the old keys plus every listed domain; existing rows keep their values, because a duplicate key makes the insert fail; new rows are all zero |
| Persistence.InitStatsIdempotent | dnsping.cpp:175-186 | running `init_stats` twice over the same list is the same as running it once |
| Persistence.InitKeepsConsistent | dnsping.cpp:175-187 | if every row agreed with the time series and the newly listed domains have no samples, every row still agrees afterwards |
| Persistence.UpdateDB | dnsping.cpp:191-244 | the sample is always appended; no key is added or removed and other domains' rows stay the same; a failed or empty stats read leaves the stats table as it was; otherwise the row has one more probe, the mean over all of the domain's samples, the supplied deviation and the new last timestamp, and its first timestamp is set only on the first probe |
| Persistence.MeanExtend | dnsping.cpp:219-222 | recomputing `AVG(latency)` over the extended history equals the running-mean update of the previous average |
| Persistence.MeanBounds | dnsping.cpp:219-222 | the stored average lies between the smallest and the largest latency recorded |
| Persistence.UpdateKeepsConsistent | dnsping.cpp:197-241 | an update whose stats read succeeds keeps every row in agreement with its sample history: count, mean, first and last timestamp |
| Persistence.UpdateKeepsRowMatching | dnsping.cpp:197-241 | the same for a single row: a row that agreed with its history before a successful update still agrees after it, whether or not it is the updated domain's |
| Persistence.FailedReadLosesCount | dnsping.cpp:197-207 | when the stats read fails after the insert, the domain's row no longer agrees with its history (its count falls behind) |
| Persistence.UpdatesKeepFirstTimestamp | dnsping.cpp:232-240 | once a row has a probe, further updates never move its first timestamp; they add one probe each and leave the last timestamp at the latest reading |
| Persistence.FirstTimestampIsFirstReading | dnsping.cpp:232-240 | starting from a zero row, after any non-empty run of updates the first timestamp is the first reading's, the count is the number of readings, and the last timestamp is the last reading's |
| Driver.EffectiveInterval | dnsping.cpp:323 | the sleep interval is always positive: a positive `-i` is kept, anything else becomes 60 |
| Driver.RunRound | dnsping.cpp:402-408 | a round adds no stats keys; with the database in use it appends exactly the samples of the probes that got an answer, in list order; without it nothing changes |
| Driver.DriveRound | dnsping.cpp:402-408 | the inner loop probes every domain once, in list order, and leaves the store as the round semantics prescribes |
| Driver.Drive | dnsping.cpp:396-415 | count -1 runs every observed round and sleeps after each; a count from 0 to the rounds observed runs exactly that many rounds and sleeps one time fewer; a count below -1 runs and sleeps nothing; domains are probed round after round in list order; the store is the rounds' effect applied in order; the time slept is the number of sleeps times the interval |
| Driver.NegativeCountAnnouncedButIdle | dnsping.cpp:398 | a count below -1 is announced as "for ever", yet the loop condition fails before the first round |
| Driver.RunKeepsConsistent | dnsping.cpp:398-415 | over any run in which every stats read succeeds, a store whose rows agree with the time series still does afterwards |
| Driver.RoundKeepsConsistent | dnsping.cpp:402-408 | the same for a single round |
| Report.ChooseFilter | querydb.cpp:108-141 | no file and no domain selects every domain; a file name takes precedence over `-D` and selects the loaded names, or fails as loading fails; otherwise only the `-D` domain is selected |
| Report.SelectSeriesMembers | querydb.cpp:158-175 | a time-series row is printed exactly when it is in the table and the filter selects its domain |
| Report.SelectSeriesCounts | querydb.cpp:158-175 | every table sample whose domain the filter selects is printed exactly as many times as it occurs in the table, duplicates included; every other sample is printed zero times |
| Report.SelectStats | querydb.cpp:181-199 | a stats row is printed exactly when its domain is in the table and selected, with its stored values |
| Report.Query | querydb.cpp:108-199 | a list failure stops the program before the database; a failed connection stops it after the list is read; otherwise the stats rows of the chosen filter are printed, and the time series exactly when `-t` is given |
| Report.NoFilterReportsEverything | querydb.cpp:159-183 | with neither a file nor `-D`, both tables are printed in full |
| Report.SelectAllSeries | querydb.cpp:159-160 | the unfiltered time-series query returns the table as it is, in order |
| Report.FileOverridesDomain | querydb.cpp:108-141 | when a file name is given, the `-D` value has no effect on the outcome |
| Report.FileSelectsListedDomains | querydb.cpp:161-188 | with a readable file, both tables print exactly the rows whose domain is one of the loaded names |
| Report.MissingFileStopsBeforeDatabase | querydb.cpp:113-119 | an unopenable file ends the run with the file error, whether or not the database is reachable |
| Report.UnknownDomainReportsNoStats | querydb.cpp:189-190 | asking for a single domain that has no stats row prints an empty stats table |

## Left out

- The ldns calls are not modelled: building the resolver from `/etc/resolv.conf`, the A query, `ldns_pkt_querytime` and `ldns_pkt_timestamp`. Their outcome is the `Resolution` parameter.
- Reading the answer section in verbose mode is left out. It only prints.
- The MySQL connection, `select_db`/`create_db`, `CREATE TABLE` and the `-C` table drops are not modelled. The model takes whether the database is in use (`usingDB`) and the store as it stands when the rounds begin.
- Persistence.UpdateDB: the new standard deviation is an input (`std`), not computed, because `STD(latency)` needs a square root over reals. The mean is exact; the `double` rounding, `strtod`/`atoi` of stored text and the formatting of the `UPDATE` statement are not modelled.
- Persistence.UpdateDB: the `SELECT AVG(latency)` and `SELECT STD(latency)` reads are not checked by the source, which indexes row 0 of their results unconditionally; the model assumes both reads succeed and return the mean of the domain's samples and the supplied deviation.
- Persistence.UpdateDB: the source indexes row 0 of a stats result even when no row exists, which is undefined behaviour. The model leaves the stats table unchanged in that case, as it does when the read fails.
- The `INSERT` and `UPDATE` statements are assumed to succeed. Domain names are not SQL-quoted in the source; the model treats them as opaque keys.
- `VARCHAR(30)` truncation of domains and MySQL's case-insensitive string comparison are not modelled: keys compare as exact strings.
- Timestamps are whole seconds (`tv_sec`, as written with `FROM_UNIXTIME`). The TIMESTAMP column's range is not modelled.
- Latency is a 32-bit unsigned value in the source and a `nat` here; query times never approach the bound.
- `rand()`, `srand(time(NULL))`, `sleep`, `printf` and the signal handlers are not modelled. Random values are supplied, and sleeping is counted rather than performed.
- Command-line parsing (`getopt`, `atoi`) is not modelled. The options arrive already parsed.
- Driver.Drive: a run with count -1 never ends. The model runs the rounds whose observations are supplied and states what holds after each of them.
- Report.Query: a `SELECT` without `ORDER BY` has no guaranteed row order. The model returns the time series in table order and the stats rows as a map.
- The `NoDomains` error of `Report.ChooseFilter` is kept for fidelity to the code's check, but `Loader.OpenedFileNeverEmpty` shows it never occurs.
