/**
 The reporting program (querydb.cpp): which rows of the two tables it prints.
 With neither a file nor `-D` every row is reported; a non-empty file name
 wins over `-D` and selects the rows whose domain is one of the loaded names;
 otherwise only the `-D` domain's rows. The same filter applies to the time
 series and to the stats table. The SQL text that expresses the filter is
 replaced by the predicate it means.
 */
module Report {
  import opened Wrappers
  import opened Loader
  import opened Persistence

  /** Which domains a report covers. */
  datatype Filter = AllDomains | DomainList(names: seq<string>) | OneDomain(domain: string)

  /** Whether a row of `domain` is selected: the WHERE clause of both queries. */
  predicate Selects(f: Filter, domain: string) {
    match f
    case AllDomains => true
    case DomainList(names) => domain in names
    case OneDomain(d) => domain == d
  }

  /** Why the program stops without a report. */
  datatype QueryError = ListError(reason: LoadError) | ConnectionFailed

  /**
   The filter the options select. `fileText` is the file's content, `None`
   when it cannot be opened; it is only looked at when a file name is given.
   */
  function ChooseFilter(filename: string, fileText: Option<seq<char>>, topN: int, domain: string): (r: Result<Filter, LoadError>)
    ensures filename == [] && domain == [] ==> r == Success(AllDomains)
    ensures filename == [] && domain != [] ==> r == Success(OneDomain(domain))
    ensures filename != [] && LoadDomains(fileText, topN).Success? ==>
              r == Success(DomainList(LoadDomains(fileText, topN).value))
    ensures filename != [] && LoadDomains(fileText, topN).Failure? ==>
              r == Failure(LoadDomains(fileText, topN).error)
  {
    if filename == [] && domain == [] then Success(AllDomains)
    else if filename != [] then
      match LoadDomains(fileText, topN)
      case Failure(e) => Failure(e)
      case Success(names) => Success(DomainList(names))
    else Success(OneDomain(domain))
  }

  /** The time-series rows a filter selects, in table order. */
  function SelectSeries(series: seq<Sample>, f: Filter): (r: seq<Sample>)
    ensures |r| <= |series|
  {
    if |series| == 0 then []
    else
      var n := |series| - 1;
      SelectSeries(series[..n], f) + (if Selects(f, series[n].domain) then [series[n]] else [])
  }

  /** A sample is reported exactly when it is in the table and the filter selects its domain. */
  lemma {:induction false} SelectSeriesMembers(series: seq<Sample>, f: Filter)
    ensures forall x :: x in SelectSeries(series, f) <==> x in series && Selects(f, x.domain)
  {
    if |series| > 0 {
      var n := |series| - 1;
      SelectSeriesMembers(series[..n], f);
      assert series == series[..n] + [series[n]];
    }
  }

  /**
   Each sample is printed as many times as it occurs in the table when the
   filter selects its domain, and never otherwise.
   */
  lemma {:induction false} SelectSeriesCounts(series: seq<Sample>, f: Filter)
    ensures forall x :: multiset(SelectSeries(series, f))[x]
                     == if Selects(f, x.domain) then multiset(series)[x] else 0
  {
    if |series| > 0 {
      var n := |series| - 1;
      SelectSeriesCounts(series[..n], f);
      assert series == series[..n] + [series[n]];
    }
  }

  /** The stats rows a filter selects. */
  function SelectStats(stats: map<string, StatsRow>, f: Filter): (r: map<string, StatsRow>)
    ensures forall d :: d in r <==> d in stats && Selects(f, d)
    ensures forall d :: d in r ==> r[d] == stats[d]
  {
    map d | d in stats && Selects(f, d) :: stats[d]
  }

  /** What is printed: the time series when `-t` is given, and the stats rows. */
  datatype Output = Output(filter: Filter, series: Option<seq<Sample>>, stats: map<string, StatsRow>)

  /**
   One run of the reporting program against store `s`; `connected` says
   whether the database connection succeeds. The domain list is read, and can
   stop the program, before the database is contacted.
   */
  function Query(filename: string, fileText: Option<seq<char>>, topN: int, domain: string,
                 printTimeseries: bool, connected: bool, s: Store): (r: Result<Output, QueryError>)
    ensures ChooseFilter(filename, fileText, topN, domain).Failure? ==>
              r == Failure(ListError(ChooseFilter(filename, fileText, topN, domain).error))
    ensures ChooseFilter(filename, fileText, topN, domain).Success? && !connected ==> r == Failure(ConnectionFailed)
    ensures r.Success? ==> connected && r.value.filter == ChooseFilter(filename, fileText, topN, domain).value
    ensures r.Success? ==> r.value.stats == SelectStats(s.stats, r.value.filter)
    ensures r.Success? ==> (r.value.series.Some? <==> printTimeseries)
    ensures r.Success? && printTimeseries ==> r.value.series.value == SelectSeries(s.series, r.value.filter)
  {
    match ChooseFilter(filename, fileText, topN, domain)
    case Failure(e) => Failure(ListError(e))
    case Success(f) =>
      if !connected then Failure(ConnectionFailed)
      else
        var series := if printTimeseries then Some(SelectSeries(s.series, f)) else None;
        Success(Output(f, series, SelectStats(s.stats, f)))
  }

  /** With neither a file nor a domain, every row of both tables is reported. */
  lemma NoFilterReportsEverything(topN: int, fileText: Option<seq<char>>, s: Store)
    ensures var r := Query([], fileText, topN, [], true, true, s);
      r.Success? && r.value.series == Some(s.series) && r.value.stats == s.stats
  {
    SelectAllSeries(s.series);
  }

  lemma {:induction false} SelectAllSeries(series: seq<Sample>)
    ensures SelectSeries(series, AllDomains) == series
  {
    if |series| > 0 {
      var n := |series| - 1;
      SelectAllSeries(series[..n]);
      assert Selects(AllDomains, series[n].domain);
      assert SelectSeries(series, AllDomains) == series[..n] + [series[n]];
      assert series[..n] + [series[n]] == series;
    }
  }

  /** A file name makes `-D` irrelevant: the outcome is the same whatever domain is given. */
  lemma FileOverridesDomain(filename: string, fileText: Option<seq<char>>, topN: int, d1: string, d2: string,
                            printTimeseries: bool, connected: bool, s: Store)
    requires filename != []
    ensures Query(filename, fileText, topN, d1, printTimeseries, connected, s)
         == Query(filename, fileText, topN, d2, printTimeseries, connected, s)
  {
  }

  /**
   With a readable file, a row is reported exactly when its domain is one of
   the names loaded from it, in both tables.
   */
  lemma FileSelectsListedDomains(filename: string, text: seq<char>, topN: int, domain: string, s: Store)
    requires filename != []
    ensures var r := Query(filename, Some(text), topN, domain, true, true, s);
      && r.Success?
      && var names := LoadDomains(Some(text), topN).value;
      && (forall d :: d in r.value.stats <==> d in s.stats && d in names)
      && (forall x :: x in r.value.series.value <==> x in s.series && x.domain in names)
  {
    OpenedFileNeverEmpty(text, topN);
    SelectSeriesMembers(s.series, DomainList(LoadDomains(Some(text), topN).value));
  }

  /** A file that cannot be opened stops the program before the database is contacted. */
  lemma MissingFileStopsBeforeDatabase(filename: string, topN: int, domain: string, printTimeseries: bool,
                                       connected: bool, s: Store)
    requires filename != []
    ensures Query(filename, None, topN, domain, printTimeseries, connected, s) == Failure(ListError(FileMissing))
  {
  }

  /** Asking for a single domain that has no stats row reports an empty stats table. */
  lemma UnknownDomainReportsNoStats(domain: string, printTimeseries: bool, s: Store)
    requires domain != [] && domain !in s.stats
    ensures var r := Query([], None, 10, domain, printTimeseries, true, s);
      r.Success? && r.value.stats == map[]
  {
  }
}
