/** The attitude reader of sampex/load.py. An attitude file spans several days; its name
    `PSSet_6sec_<start>_<end>.txt` carries the first and last day as YEARDOY keys. The reader
    picks the last covering file in path order (downloading every covering file of the
    archive when none is local), skips the file's header, builds the table of the default
    columns, turns Year / Day-of-year / Sec_of_day into timestamps and maps longitudes into
    [-180, 180). Sec_of_day is in whole seconds, timestamps are in milliseconds and
    GEO_Long is in hundredths of a degree. */
module AttitudeFiles {
  import opened Errors
  import opened Text
  import opened DateCodec
  import opened Tables
  import opened Paths
  import opened Download
  import opened Locate

  const AttitudePattern: string := "PSSet_6sec_*_*.txt"
  const PSSetUrl: string := "https://izw1.caltech.edu/sampex/DataCenter/DATA/PSSet/Text/"

  /** `data_dir / 'Attitude'`. */
  function AttitudeDir(env: Env): seq<string> { env.dataDir + ["Attitude"] }

  // ---------------------------------------------------------------------------------------
  // Which file covers the day

  /** `start, end = re.findall(r"\d+", name)[1:]` and `start <= key <= end`: a name without
      exactly three digit runs fails to unpack. */
  function Covers(name: string, key: int): Result<bool> {
    var runs := DigitRuns(name);
    DigitRunsDigits(name);
    if |runs| != 3 then Err(ValueError)
    else Ok(ParseDigits(runs[1]) <= key <= ParseDigits(runs[2]))
  }

  /** The fixed part of the names holds one digit run, the "6" of "6sec". */
  lemma FixedPartRuns()
    ensures DigitRuns("PSSet_6sec_") == ["6"]
  {
    assert "PSSet_6sec_" == "PSSet_" + ("6" + "sec_");
    DigitRunsNone("PSSet_");
    DigitRunsOfNumber("6");
    DigitRunsNone("sec_");
    DigitRunsAppend("6", "sec_");
    DigitRunsAppend("PSSet_", "6" + "sec_");
  }

  /** The end part `_<end>.txt` of a name holds the end key as its only digit run. */
  lemma EndPartRuns(e: string)
    requires |e| >= 1 && AllDigits(e)
    ensures DigitRuns("_" + (e + ".txt")) == [e]
  {
    DigitRunsOfNumber(e);
    DigitRunsNone(".txt");
    DigitRunsAppend(e, ".txt");
    DigitRunsNone("_");
    DigitRunsAppend("_", e + ".txt");
  }

  /** A digit string between a part ending in a separator and one starting with a separator
      adds its own run between theirs. */
  lemma RunsAround(front: string, s: string, back: string)
    requires |s| >= 1 && AllDigits(s)
    requires front != [] && !IsDigit(front[|front| - 1]) && back != [] && !IsDigit(back[0])
    ensures DigitRuns(front + (s + back)) == DigitRuns(front) + [s] + DigitRuns(back)
  {
    DigitRunsOfNumber(s);
    DigitRunsAppend(s, back);
    DigitRunsAppend(front, s + back);
    ConcatAssoc(DigitRuns(front), [s], DigitRuns(back));
  }

  lemma ConcatAssoc(a: seq<string>, m: seq<string>, b: seq<string>)
    ensures a + (m + b) == a + m + b
  {
  }

  /** The digit runs of a name of the archive's form. */
  lemma FileNameRuns(s: string, e: string)
    requires |s| >= 1 && |e| >= 1 && AllDigits(s) && AllDigits(e)
    ensures DigitRuns("PSSet_6sec_" + s + "_" + e + ".txt") == ["6", s, e]
  {
    var fixed := "PSSet_6sec_";
    assert fixed[|fixed| - 1] == '_';
    NameRuns(fixed, s, e);
    FixedPartRuns();
  }

  /** The digit runs of `<fixed><s>_<e>.txt`, for a fixed part ending in a non-digit. */
  lemma NameRuns(fixed: string, s: string, e: string)
    requires |s| >= 1 && |e| >= 1 && AllDigits(s) && AllDigits(e)
    requires fixed != [] && !IsDigit(fixed[|fixed| - 1])
    ensures DigitRuns(fixed + s + "_" + e + ".txt") == DigitRuns(fixed) + [s] + [e]
  {
    var tail := "_" + (e + ".txt");
    NameShape(fixed, s, e);
    assert tail[0] == '_';
    EndPartRuns(e);
    RunsAround(fixed, s, tail);
  }

  /** The name regrouped as the fixed part, then the start key, then the rest. */
  lemma NameShape(fixed: string, s: string, e: string)
    ensures fixed + s + "_" + e + ".txt" == fixed + (s + ("_" + (e + ".txt")))
  {
  }

  /** A name of the archive's form covers exactly the keys from its start key to its end key
      (the "6" of "6sec" is the digit run that `[1:]` skips). */
  lemma CoversFileName(s: string, e: string, key: int)
    requires |s| >= 1 && |e| >= 1 && AllDigits(s) && AllDigits(e)
    ensures Covers("PSSet_6sec_" + s + "_" + e + ".txt", key) == Ok(ParseDigits(s) <= key <= ParseDigits(e))
  {
    FileNameRuns(s, e);
  }

  /** No entry after position `i` covers the key. */
  predicate NoneCoverAfter(names: seq<string>, key: int, i: int)
    requires -1 <= i < |names|
  {
    forall j :: i < j < |names| ==> Covers(names[j], key) == Ok(false)
  }

  function NamesOf(files: seq<LocalPath>): (r: seq<string>)
    ensures |r| == |files| && forall j :: 0 <= j < |files| ==> r[j] == files[j].name
  {
    seq(|files|, j requires 0 <= j < |files| => files[j].name)
  }

  /** The loop of `_find_local_file`: the last file that covers the key, None when none does;
      the first name (in order) that fails to unpack raises ValueError. */
  function LastCovering(names: seq<string>, key: int): (r: Result<Option<nat>>)
    ensures r.Err? <==> exists j :: 0 <= j < |names| && Covers(names[j], key).Err?
    ensures r.Err? ==> r.error == ValueError
    ensures r == Ok(None) <==> NoneCoverAfter(names, key, -1)
    ensures r.Ok? && r.value.Some? ==>
      (r.value.value < |names| && Covers(names[r.value.value], key) == Ok(true) && NoneCoverAfter(names, key, r.value.value))
    decreases |names|
  {
    if names == [] then Ok(None)
    else
      var n := |names| - 1;
      var prefix := names[..n];
      assert forall j :: 0 <= j < n ==> prefix[j] == names[j];
      match LastCovering(prefix, key)
      case Err(e) => Err(e)
      case Ok(prev) =>
        match Covers(names[n], key)
        case Err(e) => Err(e)
        case Ok(c) => Ok(if c then Some(n) else prev)
  }

  /** Extending the prefix by one name: the search on the longer prefix, from the search on
      the shorter one. */
  lemma LastCoveringStep(names: seq<string>, key: int, i: nat)
    requires i < |names|
    ensures LastCovering(names[..i + 1], key) ==
      match LastCovering(names[..i], key)
      case Err(e) => Err(e)
      case Ok(prev) =>
        match Covers(names[i], key)
        case Err(e) => Err(e)
        case Ok(c) => Ok(if c then Some(i) else prev)
  {
    assert names[..i + 1][..i] == names[..i];
    assert names[..i + 1][i] == names[i];
  }

  /** The remote loop of `_download_remote_file`: every covering file is downloaded, with
      progress shown, and the last one downloaded is kept. Without a failed download this is
      the choice `LastCovering` makes among the listed names. */
  function DownloadCovering(env: Env, urls: seq<string>, key: int, dir: seq<string>): (r: Result<Option<LocalPath>>)
    ensures LastCovering(UrlNames(urls), key).Err? ==> r.Err?
    ensures LastCovering(UrlNames(urls), key) == Ok(None) ==> r == Ok(None)
    ensures r.Ok? ==> (LastCovering(UrlNames(urls), key).Ok? &&
      r.value == (match LastCovering(UrlNames(urls), key).value
                  case None => None
                  case Some(i) => Some(LocalPath(dir, UrlName(urls[i])))))
    decreases |urls|
  {
    if urls == [] then Ok(None)
    else
      var n := |urls| - 1;
      var prefix := urls[..n];
      assert UrlNames(urls)[..n] == UrlNames(prefix);
      match DownloadCovering(env, prefix, key, dir)
      case Err(e) => Err(e)
      case Ok(prev) => CoverStep(env, prev, urls[n], key, dir)
  }

  /** Every listed file that covers the key can be downloaded, streamed. */
  predicate CoveringDownloadsSucceed(env: Env, urls: seq<string>, key: int, dir: seq<string>) {
    forall j :: 0 <= j < |urls| && Covers(UrlName(urls[j]), key) == Ok(true) ==>
      DownloadSpec(env.web, urls[j], dir, env.existing, false, true).Ok?
  }

  /** When every listed name unpacks, the remote loop succeeds exactly when every covering
      download does; so it then ends with `LastCovering`'s choice, and an error means some
      covering download failed. */
  lemma {:induction false} DownloadCoveringSucceeds(env: Env, urls: seq<string>, key: int, dir: seq<string>)
    requires LastCovering(UrlNames(urls), key).Ok?
    ensures DownloadCovering(env, urls, key, dir).Ok? <==> CoveringDownloadsSucceed(env, urls, key, dir)
    decreases |urls|
  {
    if urls != [] {
      var n := |urls| - 1;
      LastCoveringPrefixOk(urls, key);
      DownloadCoveringSucceeds(env, urls[..n], key, dir);
      CoveringDownloadsSplit(env, urls, key, dir);
    }
  }

  /** When every name unpacks, so does every name of a prefix, and the last one. */
  lemma LastCoveringPrefixOk(urls: seq<string>, key: int)
    requires urls != [] && LastCovering(UrlNames(urls), key).Ok?
    ensures LastCovering(UrlNames(urls[..|urls| - 1]), key).Ok?
    ensures Covers(UrlName(urls[|urls| - 1]), key).Ok?
  {
    var n := |urls| - 1;
    var names, pre := UrlNames(urls), UrlNames(urls[..n]);
    assert forall j :: 0 <= j < n ==> pre[j] == names[j];
    assert Covers(names[n], key).Ok?;
  }

  /** The downloads of a list succeed when those of its prefix and of its last file do. */
  lemma CoveringDownloadsSplit(env: Env, urls: seq<string>, key: int, dir: seq<string>)
    requires urls != []
    ensures CoveringDownloadsSucceed(env, urls, key, dir) <==>
      CoveringDownloadsSucceed(env, urls[..|urls| - 1], key, dir) &&
      (Covers(UrlName(urls[|urls| - 1]), key) == Ok(true) ==>
        DownloadSpec(env.web, urls[|urls| - 1], dir, env.existing, false, true).Ok?)
  {
    var n := |urls| - 1;
    var prefix := urls[..n];
    assert forall j :: 0 <= j < n ==> prefix[j] == urls[j];
  }

  /** One turn of the remote loop: a covering file is downloaded and replaces the previous
      choice, any other file keeps it. */
  function CoverStep(env: Env, prev: Option<LocalPath>, url: string, key: int, dir: seq<string>): Result<Option<LocalPath>> {
    match Covers(UrlName(url), key)
    case Err(e) => Err(e)
    case Ok(c) =>
      if !c then Ok(prev)
      else
        var f := DownloadSpec(env.web, url, dir, env.existing, false, true);
        if f.Err? then Err(f.error) else Ok(Some(f.value.path))
  }

  /** The body of the remote loop, on one listed `Downloader`. */
  method FetchIfCovering(env: Env, child: Downloader, prev: Option<LocalPath>, key: int, dir: seq<string>)
    returns (r: Result<Option<LocalPath>>)
    requires child.downloadDir == Some(dir)
    modifies child
    ensures child.downloadDir == old(child.downloadDir)
    ensures r == CoverStep(env, prev, child.url, key, dir)
  {
    var c := Covers(child.Name(), key);
    if c.Err? {
      return Err(c.error);
    }
    if !c.value {
      return Ok(prev);
    }
    var fetched := child.Download(env.web, env.existing, None, false, true);
    if fetched.Err? {
      return Err(fetched.error);
    }
    return Ok(Some(fetched.value.path));
  }

  /** `[d.name() for d in matched_downloaders]`. */
  function UrlNames(urls: seq<string>): (r: seq<string>)
    ensures |r| == |urls| && forall j :: 0 <= j < |urls| ==> r[j] == UrlName(urls[j])
  {
    seq(|urls|, j requires 0 <= j < |urls| => UrlName(urls[j]))
  }

  /** The local candidates, in `sorted` order. */
  function LocalCandidates(env: Env): seq<LocalPath> { SortPaths(Rglob(env.files, AttitudePattern)) }

  /** The archive's step: list it, then download the covering files. */
  function RemoteCovering(env: Env, key: int): Result<Option<LocalPath>> {
    match LsUrls(env.web, PSSetUrl, AttitudePattern)
    case Err(e) => Err(e)
    case Ok(urls) => DownloadCovering(env, urls, key, AttitudeDir(env))
  }

  /** `_find_attitude_file`: the last covering local file, else the last covering file of the
      archive, else FileNotFoundError. */
  function AttitudeFind(env: Env, d: Date): (r: Result<LocalPath>)
    requires ValidDate(d)
    ensures LastCovering(NamesOf(LocalCandidates(env)), YearDoyKey(d)).Err? ==> r == Err(ValueError)
    ensures LastCovering(NamesOf(LocalCandidates(env)), YearDoyKey(d)) == Ok(None) ==>
      (match RemoteCovering(env, YearDoyKey(d))
       case Err(e) => r == Err(e)
       case Ok(None) => r == Err(FileNotFoundError)
       case Ok(Some(p)) => r == Ok(p))
    ensures (LastCovering(NamesOf(LocalCandidates(env)), YearDoyKey(d)).Ok? &&
             LastCovering(NamesOf(LocalCandidates(env)), YearDoyKey(d)).value.Some?) ==>
      r == Ok(LocalCandidates(env)[LastCovering(NamesOf(LocalCandidates(env)), YearDoyKey(d)).value.value])
  {
    var files := LocalCandidates(env);
    match LastCovering(NamesOf(files), YearDoyKey(d))
    case Err(e) => Err(e)
    case Ok(Some(i)) => Ok(files[i])
    case Ok(None) =>
      match RemoteCovering(env, YearDoyKey(d))
      case Err(e) => Err(e)
      case Ok(None) => Err(FileNotFoundError)
      case Ok(Some(p)) => Ok(p)
  }

  /** The local choice is, among the attitude files below the data directory that cover the
      day, the greatest in path order. */
  lemma LocalChoiceGreatest(env: Env, d: Date)
    requires ValidDate(d)
    requires LastCovering(NamesOf(LocalCandidates(env)), YearDoyKey(d)).Ok?
    requires LastCovering(NamesOf(LocalCandidates(env)), YearDoyKey(d)).value.Some?
    ensures AttitudeFind(env, d).Ok?
    ensures AttitudeFind(env, d).value in env.files && GlobMatch(AttitudePattern, AttitudeFind(env, d).value.name)
    ensures Covers(AttitudeFind(env, d).value.name, YearDoyKey(d)) == Ok(true)
    ensures forall q :: q in env.files && GlobMatch(AttitudePattern, q.name) && Covers(q.name, YearDoyKey(d)) == Ok(true) ==>
      !PathLt(AttitudeFind(env, d).value, q)
  {
    var files := LocalCandidates(env);
    var names := NamesOf(files);
    var i := LastCovering(names, YearDoyKey(d)).value.value;
    var p := files[i];
    assert AttitudeFind(env, d) == Ok(p);
    CandidatesAreMatches(env);
    forall q | q in env.files && GlobMatch(AttitudePattern, q.name) && Covers(q.name, YearDoyKey(d)) == Ok(true)
      ensures !PathLt(p, q)
    {
      var j :| 0 <= j < |files| && files[j] == q;
      LastIsGreatest(files, YearDoyKey(d), i, j);
    }
  }

  /** The local candidates are the matching files, sorted. */
  lemma CandidatesAreMatches(env: Env)
    ensures SortedPaths(LocalCandidates(env))
    ensures forall q :: q in LocalCandidates(env) <==> q in env.files && GlobMatch(AttitudePattern, q.name)
  {
    var m := Rglob(env.files, AttitudePattern);
    SortPathsSorted(m);
    forall q ensures q in LocalCandidates(env) <==> q in m {
      assert q in multiset(LocalCandidates(env)) <==> q in multiset(m);
    }
  }

  /** In a sorted list, a covering entry at or before the last covering one is not above it. */
  lemma LastIsGreatest(files: seq<LocalPath>, key: int, i: nat, j: nat)
    requires SortedPaths(files) && i < |files| && j < |files|
    requires NoneCoverAfter(NamesOf(files), key, i)
    requires Covers(files[j].name, key) == Ok(true)
    ensures !PathLt(files[i], files[j])
  {
    if j == i {
      PathOrder(files[i], files[i], files[i]);
    }
  }

  /** When neither the local files nor the archive's files cover the day, the reader fails
      with FileNotFoundError. */
  lemma NothingCovers(env: Env, d: Date)
    requires ValidDate(d)
    requires NoneCoverAfter(NamesOf(LocalCandidates(env)), YearDoyKey(d), -1)
    requires LsUrls(env.web, PSSetUrl, AttitudePattern).Ok?
    requires NoneCoverAfter(UrlNames(LsUrls(env.web, PSSetUrl, AttitudePattern).value), YearDoyKey(d), -1)
    ensures AttitudeFind(env, d) == Err(FileNotFoundError)
  {
    var urls := LsUrls(env.web, PSSetUrl, AttitudePattern).value;
    assert LastCovering(UrlNames(urls), YearDoyKey(d)) == Ok(None);
    assert RemoteCovering(env, YearDoyKey(d)) == Ok(None);
  }

  // ---------------------------------------------------------------------------------------
  // Reading the file

  const Marker: string := "BEGIN DATA"

  /** Line `k` is the first one that mentions the marker. */
  predicate FirstMarker(lines: seq<string>, k: int)
    requires 0 <= k < |lines|
  {
    Contains(lines[k], Marker) && forall j :: 0 <= j < k ==> !Contains(lines[j], Marker)
  }

  /** Where the data rows start after `_skip_header`: two lines after the first marker line
      (the row after it is skipped), the end of the file when there is no marker, and
      StopIteration when the marker is on the last line. */
  function DataStart(lines: seq<string>): (r: Result<nat>)
    ensures r.Ok? ==> r.value <= |lines|
    ensures r.Err? ==> r.error == StopIteration
    ensures r.Err? <==> |lines| >= 1 && FirstMarker(lines, |lines| - 1)
    ensures forall k :: 0 <= k < |lines| - 1 && FirstMarker(lines, k) ==> r == Ok(k + 2)
    ensures (forall j :: 0 <= j < |lines| ==> !Contains(lines[j], Marker)) ==> r == Ok(|lines|)
    decreases |lines|
  {
    if lines == [] then Ok(0)
    else if Contains(lines[0], Marker) then (if |lines| == 1 then Err(StopIteration) else Ok(2))
    else
      var rest := DataStart(lines[1..]);
      assert forall j :: 0 <= j < |lines| - 1 ==> lines[1..][j] == lines[j + 1];
      assert forall k :: 1 <= k < |lines| ==> (FirstMarker(lines, k) <==> FirstMarker(lines[1..], k - 1));
      if rest.Err? then rest else Ok(rest.value + 1)
  }

  /** `_skip_header(f)`: consume lines up to the first marker line and the line after it. */
  method SkipHeader(lines: seq<string>) returns (r: Result<nat>)
    ensures r == DataStart(lines)
  {
    for i := 0 to |lines|
      invariant forall j :: 0 <= j < i ==> !Contains(lines[j], Marker)
    {
      if Contains(lines[i], Marker) {
        assert FirstMarker(lines, i);
        if i + 1 == |lines| {
          return Err(StopIteration);
        }
        return Ok(i + 2);
      }
    }
    return Ok(|lines|);
  }

  /** The default `columns` of `load`: field position and column name. */
  const DefaultColumns: seq<(nat, string)> := [
    (0, "Year"), (1, "Day-of-year"), (2, "Sec_of_day"), (6, "GEO_Radius"), (7, "GEO_Long"),
    (8, "GEO_Lat"), (9, "Altitude"), (20, "L_Shell"), (22, "MLT"), (42, "Mirror_Alt"),
    (68, "Pitch"), (71, "Att_Flag")]

  /** A data row must have the last default field, position 71. */
  predicate ShortRow(fields: string -> seq<int>, row: string) { |fields(row)| <= 71 }

  /** `pd.read_csv(f, delim_whitespace=True, names=..., usecols=...)` on the rows after the
      header, `fields` giving the whitespace-separated fields of a row. */
  function ReadTable(rows: seq<string>, fields: string -> seq<int>): (r: Result<Frame>)
    ensures r.Err? <==> exists i :: 0 <= i < |rows| && ShortRow(fields, rows[i])
    ensures r.Err? ==> r.error == ParserError
    ensures r.Ok? ==> WellShaped(r.value) && |r.value.index| == |rows| && |r.value.columns| == |DefaultColumns|
    ensures r.Ok? ==> forall c :: 0 <= c < |DefaultColumns| ==> r.value.columns[c].name == DefaultColumns[c].1
    ensures r.Ok? ==> forall c, i :: 0 <= c < |DefaultColumns| && 0 <= i < |rows| ==>
      r.value.columns[c].values[i] == fields(rows[i])[DefaultColumns[c].0]
  {
    if exists i :: 0 <= i < |rows| && ShortRow(fields, rows[i]) then Err(ParserError)
    else
      var n := |rows|;
      Ok(Frame(seq(n, i => i), seq(|DefaultColumns|, c requires 0 <= c < |DefaultColumns| =>
        Column(DefaultColumns[c].1, seq(n, i requires 0 <= i < n => fields(rows[i])[DefaultColumns[c].0])))))
  }

  /** The header skip, then the table. */
  function ReadAttitude(lines: seq<string>, fields: string -> seq<int>): Result<Frame> {
    match DataStart(lines)
    case Err(e) => Err(e)
    case Ok(k) => ReadTable(lines[k..], fields)
  }

  // ---------------------------------------------------------------------------------------
  // Timestamps and longitudes

  /** `pd.to_datetime(f"{year}-{doy}", format="%Y-%j")`: the year must be written with four
      digits and the day be 1..366; day 366 of a common year is 1 January of the next. */
  function PandasDate(year: int, doy: int): (r: Result<Date>)
    ensures r.Ok? <==> 1000 <= year <= 9999 && 1 <= doy <= 366 && (doy <= DaysInYear(year) || year < 9999)
    ensures r.Ok? ==> ValidDate(r.value)
    ensures r.Ok? && doy <= DaysInYear(year) ==> r.value.year == year && DayOfYear(r.value) == doy
    ensures r.Ok? && doy > DaysInYear(year) ==> r.value == Date(year + 1, 1, 1)
    ensures r.Err? ==> r.error == ValueError
  {
    if !(1000 <= year <= 9999) || !(1 <= doy <= 366) then Err(ValueError) else FromJulian(year, doy)
  }

  /** The Year and Day-of-year of a date give the date back. */
  lemma PandasDateRoundTrip(d: Date)
    requires ValidDate(d) && d.year >= 1000
    ensures PandasDate(d.year, DayOfYear(d)) == Ok(d)
  {
    DayOfYearRoundTrip(d);
    assert 1 <= DayOfYear(d) <= DaysInYear(d.year);
    var r := PandasDate(d.year, DayOfYear(d));
    assert r.Ok?;
    assert r.value.year == d.year && DayOfYear(r.value) == DayOfYear(d);
    DayOfYearRoundTrip(r.value);
  }

  /** `pd.to_datetime(year_doy, format="%Y-%j")` on every row: one bad row fails the whole
      conversion. */
  function RowDates(years: seq<int>, doys: seq<int>): (r: Result<seq<Date>>)
    requires |years| == |doys|
    ensures r.Err? <==> exists i :: 0 <= i < |years| && PandasDate(years[i], doys[i]).Err?
    ensures r.Err? ==> r.error == ValueError
    ensures r.Ok? ==> |r.value| == |years|
    ensures r.Ok? ==> forall i :: 0 <= i < |years| ==> PandasDate(years[i], doys[i]) == Ok(r.value[i])
  {
    if exists i :: 0 <= i < |years| && PandasDate(years[i], doys[i]).Err? then Err(ValueError)
    else Ok(seq(|years|, i requires 0 <= i < |years| => PandasDate(years[i], doys[i]).value))
  }

  /** `attitude_dates + pd.to_timedelta(Sec_of_day, unit="s")`, in milliseconds. */
  function Stamps(dates: seq<Date>, secs: seq<int>): (r: seq<int>)
    requires |dates| == |secs| && forall i :: 0 <= i < |dates| ==> ValidDate(dates[i])
    ensures |r| == |dates| && forall i :: 0 <= i < |dates| ==> r[i] == MidnightMs(dates[i]) + 1000 * secs[i]
  {
    seq(|dates|, i requires 0 <= i < |dates| => MidnightMs(dates[i]) + 1000 * secs[i])
  }

  /** Rows of an earlier Year/Day-of-year key get an earlier timestamp, as long as
      Sec_of_day stays within the day. */
  lemma StampsOrder(a: Date, sa: int, b: Date, sb: int)
    requires ValidDate(a) && ValidDate(b) && 0 <= sa < 86400 && 0 <= sb < 86400
    requires YearDoyKey(a) < YearDoyKey(b)
    ensures MidnightMs(a) + 1000 * sa < MidnightMs(b) + 1000 * sb
  {
    KeyOrder(a, b);
    OrdinalOrder(a, b);
    assert Ordinal(a) + 1 <= Ordinal(b);
    assert MidnightMs(a) + MsPerDay <= MidnightMs(b);
  }

  /** The values of the first column of a name (none when it is missing). */
  function ColumnOf(f: Frame, name: string): (r: seq<int>)
    ensures WellShaped(f) && FindExact(f.columns, name).Some? ==> |r| == |f.index|
  {
    match FindExact(f.columns, name)
    case None => []
    case Some(k) => f.columns[k].values
  }

  const TimeColumns: set<string> := {"Year", "Day-of-year", "Sec_of_day"}

  /** The columns the dates come from are present. */
  predicate HasDateColumns(f: Frame) {
    FindExact(f.columns, "Year").Some? && FindExact(f.columns, "Day-of-year").Some?
  }

  /** The three time columns are all present. */
  predicate HasTimeColumns(f: Frame) {
    HasDateColumns(f) && FindExact(f.columns, "Sec_of_day").Some?
  }

  /** Row `i`'s Year and Day-of-year do not form a date. */
  predicate BadDate(f: Frame, i: nat)
    requires WellShaped(f) && HasDateColumns(f) && i < |f.index|
  {
    PandasDate(ColumnOf(f, "Year")[i], ColumnOf(f, "Day-of-year")[i]).Err?
  }

  /** Row `i`'s timestamp: the row's date at midnight plus its Sec_of_day. */
  function RowStamp(f: Frame, i: nat): int
    requires WellShaped(f) && HasTimeColumns(f) && i < |f.index| && !BadDate(f, i)
  {
    MidnightMs(PandasDate(ColumnOf(f, "Year")[i], ColumnOf(f, "Day-of-year")[i]).value) + 1000 * ColumnOf(f, "Sec_of_day")[i]
  }

  lemma BadRowIsBadDate(f: Frame, years: seq<int>, doys: seq<int>)
    requires WellShaped(f) && HasDateColumns(f)
    requires years == ColumnOf(f, "Year") && doys == ColumnOf(f, "Day-of-year")
    requires exists i :: 0 <= i < |years| && PandasDate(years[i], doys[i]).Err?
    ensures exists i :: 0 <= i < |f.index| && BadDate(f, i)
  {
    var i :| 0 <= i < |years| && PandasDate(years[i], doys[i]).Err?;
    assert BadDate(f, i);
  }

  /** `_parse_attitude_datetime(remove_old_time_cols)`: the dates come from Year and
      Day-of-year, then Sec_of_day is added; the three columns are dropped on request. */
  function ParseAttitudeDatetime(f: Frame, removeOld: bool): (r: Result<Frame>)
    requires WellShaped(f)
    ensures FindExact(f.columns, "Year").None? ==> r == Err(MissingColumn("Year"))
    ensures FindExact(f.columns, "Year").Some? && FindExact(f.columns, "Day-of-year").None? ==>
      r == Err(MissingColumn("Day-of-year"))
    ensures r.Ok? ==> HasTimeColumns(f)
    ensures HasTimeColumns(f) ==>
      (r.Err? <==> exists i :: 0 <= i < |f.index| && BadDate(f, i))
    ensures HasDateColumns(f) && (exists i :: 0 <= i < |f.index| && BadDate(f, i)) ==> r == Err(ValueError)
    ensures HasTimeColumns(f) && r.Err? ==> r.error == ValueError
    ensures r.Ok? ==> WellShaped(r.value) && |r.value.index| == |f.index|
    ensures r.Ok? ==> forall i :: 0 <= i < |f.index| ==> (!BadDate(f, i) && r.value.index[i] == RowStamp(f, i))
    ensures r.Ok? ==> r.value.columns == if removeOld then Drop(f.columns, TimeColumns) else f.columns
  {
    match FindExact(f.columns, "Year")
    case None => Err(MissingColumn("Year"))
    case Some(y) =>
      match FindExact(f.columns, "Day-of-year")
      case None => Err(MissingColumn("Day-of-year"))
      case Some(dy) =>
        assert ColumnOf(f, "Year") == f.columns[y].values && ColumnOf(f, "Day-of-year") == f.columns[dy].values;
        match RowDates(f.columns[y].values, f.columns[dy].values)
        case Err(e) =>
          BadRowIsBadDate(f, f.columns[y].values, f.columns[dy].values);
          Err(e)
        case Ok(dates) =>
          match FindExact(f.columns, "Sec_of_day")
          case None => Err(MissingColumn("Sec_of_day"))
          case Some(s) =>
            var t := Stamps(dates, f.columns[s].values);
            if removeOld then
              DropShape(f, TimeColumns, t);
              Ok(Frame(t, Drop(f.columns, TimeColumns)))
            else Ok(Frame(t, f.columns))
  }

  /** `np.mod(lon + 180, 360) - 180`, in hundredths of a degree. */
  function NormalizeLongitude(lon: int): (r: int)
    ensures -18000 <= r < 18000
    ensures (r - lon) % 36000 == 0
    ensures -18000 <= lon < 18000 ==> r == lon
  {
    var m := (lon + 18000) % 36000;
    assert lon + 18000 == 36000 * ((lon + 18000) / 36000) + m;
    m - 18000
  }

  function NormalizeAll(v: seq<int>): (r: seq<int>)
    ensures |r| == |v| && forall i :: 0 <= i < |v| ==> r[i] == NormalizeLongitude(v[i])
  {
    seq(|v|, i requires 0 <= i < |v| => NormalizeLongitude(v[i]))
  }

  /** `data["GEO_Long"] = ...` on the parsed table. */
  function NormalizeFrame(f: Frame): (r: Result<Frame>)
    requires WellShaped(f)
    ensures r.Err? <==> FindExact(f.columns, "GEO_Long").None?
    ensures r.Err? ==> r.error == MissingColumn("GEO_Long")
    ensures r.Ok? ==> WellShaped(r.value) && r.value.index == f.index && |r.value.columns| == |f.columns|
    ensures r.Ok? ==> forall j :: 0 <= j < |f.columns| ==>
      r.value.columns[j] == (if f.columns[j].name == "GEO_Long" then Column("GEO_Long", NormalizeAll(ColumnOf(f, "GEO_Long"))) else f.columns[j])
  {
    match FindExact(f.columns, "GEO_Long")
    case None => Err(MissingColumn("GEO_Long"))
    case Some(k) => Ok(Frame(f.index, SetColumn(f.columns, "GEO_Long", NormalizeAll(f.columns[k].values))))
  }

  /** `load` after the file is opened. */
  function AttitudeLoad(lines: seq<string>, fields: string -> seq<int>, removeOld: bool): Result<Frame> {
    match ReadAttitude(lines, fields)
    case Err(e) => Err(e)
    case Ok(raw) =>
      match ParseAttitudeDatetime(raw, removeOld)
      case Err(e) => Err(e)
      case Ok(parsed) => NormalizeFrame(parsed)
  }

  /** What `data` holds after `load`: each step assigns it in turn, so a failure leaves the
      table of the last step that succeeded (and the earlier value when reading fails). */
  function LoadedData(lines: seq<string>, fields: string -> seq<int>, removeOld: bool, before: Option<Frame>): Option<Frame> {
    match ReadAttitude(lines, fields)
    case Err(_) => before
    case Ok(raw) =>
      match ParseAttitudeDatetime(raw, removeOld)
      case Err(_) => Some(raw)
      case Ok(parsed) =>
        match NormalizeFrame(parsed)
        case Err(_) => Some(parsed)
        case Ok(f) => Some(f)
  }

  /** A successful load leaves its result in `data`. */
  lemma LoadedDataIsResult(lines: seq<string>, fields: string -> seq<int>, removeOld: bool, before: Option<Frame>)
    requires AttitudeLoad(lines, fields, removeOld).Ok?
    ensures LoadedData(lines, fields, removeOld, before) == Some(AttitudeLoad(lines, fields, removeOld).value)
  {
  }

  /** Every longitude of a loaded table lies in [-180, 180) degrees. */
  lemma LoadedLongitudes(lines: seq<string>, fields: string -> seq<int>, removeOld: bool, j: nat, i: nat)
    requires AttitudeLoad(lines, fields, removeOld).Ok?
    requires j < |AttitudeLoad(lines, fields, removeOld).value.columns|
    requires AttitudeLoad(lines, fields, removeOld).value.columns[j].name == "GEO_Long"
    requires i < |AttitudeLoad(lines, fields, removeOld).value.columns[j].values|
    ensures -18000 <= AttitudeLoad(lines, fields, removeOld).value.columns[j].values[i] < 18000
  {
    var raw := ReadAttitude(lines, fields).value;
    var parsed := ParseAttitudeDatetime(raw, removeOld).value;
    var r := NormalizeFrame(parsed).value;
    assert r.columns[j] == Column("GEO_Long", NormalizeAll(ColumnOf(parsed, "GEO_Long")));
  }

  /** The first field of every data row is the Year column of the table as read. */
  lemma DefaultYearColumn(lines: seq<string>, fields: string -> seq<int>, i: nat)
    requires ReadAttitude(lines, fields).Ok? && i < |ReadAttitude(lines, fields).value.index|
    ensures DataStart(lines).Ok? && DataStart(lines).value + i < |lines|
    ensures ColumnOf(ReadAttitude(lines, fields).value, "Year")[i] == fields(lines[DataStart(lines).value + i])[0]
  {
    var k := DataStart(lines).value;
    var rows := lines[k..];
    var f := ReadTable(rows, fields).value;
    assert ReadAttitude(lines, fields).value == f;
    YearIsFirst();
    assert f.columns[0].name == "Year";
    assert FindExact(f.columns, "Year") == Some(0);
    assert rows[i] == lines[k + i];
    assert f.columns[0].values[i] == fields(rows[i])[0];
  }

  /** The default table starts with field 0 as "Year". */
  lemma YearIsFirst()
    ensures |DefaultColumns| == 12 && DefaultColumns[0] == (0, "Year")
  {
  }

  // ---------------------------------------------------------------------------------------

  /** `sampex.Attitude`. */
  class Attitude {
    const loadDate: Date
    /** `attitude_file`. */
    var attitudeFile: Option<LocalPath>
    /** `data`: None until `load` assigns it. */
    var data: Option<Frame>

    constructor(loadDate: Date)
      ensures this.loadDate == loadDate && attitudeFile.None? && data.None?
    {
      this.loadDate := loadDate;
      attitudeFile := None;
      data := None;
    }

    /** `Attitude(load_date)`: construction already looks for the file. */
    static method Open(d: Date, env: Env) returns (r: Result<Attitude>)
      requires ValidDate(d)
      ensures r.Ok? <==> AttitudeFind(env, d).Ok?
      ensures r.Err? ==> r.error == AttitudeFind(env, d).error
      ensures r.Ok? ==> fresh(r.value) && r.value.loadDate == d && r.value.data.None?
      ensures r.Ok? ==> r.value.attitudeFile == Some(AttitudeFind(env, d).value)
    {
      var a := new Attitude(d);
      var found := a.FindAttitudeFile(env);
      if found.Err? {
        return Err(found.error);
      }
      return Ok(a);
    }

    /** `_find_attitude_file()`. */
    method FindAttitudeFile(env: Env) returns (r: Result<LocalPath>)
      requires ValidDate(loadDate)
      modifies this
      ensures r == AttitudeFind(env, loadDate)
      ensures r.Ok? ==> attitudeFile == Some(r.value)
      ensures data == old(data)
    {
      var local := FindLocalFile(env.files);
      if local.Err? {
        return Err(local.error);
      }
      if local.value.Some? {
        return Ok(local.value.value);
      }
      var remote := DownloadRemoteFile(env);
      if remote.Err? {
        return Err(remote.error);
      }
      if remote.value.None? {
        return Err(FileNotFoundError);
      }
      return Ok(remote.value.value);
    }

    /** `_find_local_file()`: walk the sorted candidates, keeping the last covering one. */
    method FindLocalFile(files: seq<LocalPath>) returns (r: Result<Option<LocalPath>>)
      requires ValidDate(loadDate)
      modifies this
      ensures r.Err? <==> LastCovering(NamesOf(SortPaths(Rglob(files, AttitudePattern))), YearDoyKey(loadDate)).Err?
      ensures r.Err? ==> r.error == ValueError
      ensures r.Ok? ==>
        r.value == (match LastCovering(NamesOf(SortPaths(Rglob(files, AttitudePattern))), YearDoyKey(loadDate)).value
                    case None => None
                    case Some(i) => Some(SortPaths(Rglob(files, AttitudePattern))[i]))
      ensures r.Ok? ==> attitudeFile == r.value
      ensures data == old(data)
    {
      var sorted := SortPaths(Rglob(files, AttitudePattern));
      var names := NamesOf(sorted);
      var key := YearDoyKey(loadDate);
      attitudeFile := None;
      ghost var found: Option<nat> := None;
      for i := 0 to |sorted|
        invariant LastCovering(names[..i], key) == Ok(found)
        invariant attitudeFile == (match found case None => None case Some(k) => Some(sorted[k]))
        invariant found.Some? ==> found.value < i
        invariant data == old(data)
      {
        LastCoveringStep(names, key, i);
        var c := Covers(sorted[i].name, key);
        if c.Err? {
          return Err(c.error);
        }
        if c.value {
          attitudeFile := Some(sorted[i]);
          found := Some(i);
        }
      }
      assert names[..|sorted|] == names;
      return Ok(attitudeFile);
    }

    /** `_download_remote_file()`: list the archive and download each covering file. */
    method DownloadRemoteFile(env: Env) returns (r: Result<Option<LocalPath>>)
      requires ValidDate(loadDate)
      modifies this
      ensures r == RemoteCovering(env, YearDoyKey(loadDate))
      ensures r.Ok? ==> attitudeFile == r.value
      ensures data == old(data)
    {
      var dir := AttitudeDir(env);
      var root := new Downloader(PSSetUrl, Some(dir));
      var matched := root.Ls(env.web, AttitudePattern);
      if matched.Err? {
        return Err(matched.error);
      }
      var children := matched.value;
      r := FetchCovering(env, children, LsUrls(env.web, PSSetUrl, AttitudePattern).value, YearDoyKey(loadDate), dir);
    }

    /** The loop of `_download_remote_file` over the listed `Downloader`s. */
    method FetchCovering(env: Env, children: seq<Downloader>, ghost urls: seq<string>, key: int, dir: seq<string>)
      returns (r: Result<Option<LocalPath>>)
      requires |children| == |urls|
      requires forall j :: 0 <= j < |children| ==> children[j].url == urls[j] && children[j].downloadDir == Some(dir)
      modifies this, children
      ensures r == DownloadCovering(env, urls, key, dir)
      ensures r.Ok? ==> attitudeFile == r.value
      ensures data == old(data)
    {
      attitudeFile := None;
      for i := 0 to |children|
        invariant DownloadCovering(env, urls[..i], key, dir) == Ok(attitudeFile)
        invariant forall j :: i <= j < |children| ==> children[j].downloadDir == Some(dir)
        invariant data == old(data)
      {
        DownloadCoveringStep(env, urls, i, key, dir);
        var step := FetchIfCovering(env, children[i], attitudeFile, key, dir);
        if step.Err? {
          DownloadErrorStays(env, urls, i, key, dir);
          return Err(step.error);
        }
        attitudeFile := step.value;
      }
      assert urls[..|children|] == urls;
      return Ok(attitudeFile);
    }

    /** `load(remove_old_time_cols)` with the default columns. The file's lines come from
        inside the archive when its suffix is ".zip". The table read is stored before the
        time is parsed, so a failed parse leaves it in `data`. */
    method Load(readText: LocalPath -> seq<string>, readZip: LocalPath -> seq<string>,
                fields: string -> seq<int>, removeOld: bool) returns (r: Result<Frame>)
      requires attitudeFile.Some?
      modifies this
      ensures attitudeFile == old(attitudeFile)
      ensures r == AttitudeLoad(FileLines(attitudeFile.value, readText, readZip), fields, removeOld)
      ensures data == LoadedData(FileLines(attitudeFile.value, readText, readZip), fields, removeOld, old(data))
    {
      var path := attitudeFile.value;
      var lines: seq<string>;
      if IsZip(path.name) {
        lines := readZip(path);
      } else {
        lines := readText(path);
      }
      r := LoadLines(lines, fields, removeOld);
    }

    /** The part of `load` after the file is opened. */
    method LoadLines(lines: seq<string>, fields: string -> seq<int>, removeOld: bool) returns (r: Result<Frame>)
      modifies this
      ensures attitudeFile == old(attitudeFile)
      ensures r == AttitudeLoad(lines, fields, removeOld)
      ensures data == LoadedData(lines, fields, removeOld, old(data))
    {
      var start := SkipHeader(lines);
      if start.Err? {
        return Err(start.error);
      }
      var table := ReadTable(lines[start.value..], fields);
      assert table == ReadAttitude(lines, fields);
      if table.Err? {
        return Err(table.error);
      }
      data := Some(table.value);
      var parsed := ParseAttitudeDatetime(table.value, removeOld);
      if parsed.Err? {
        return Err(parsed.error);
      }
      data := Some(parsed.value);
      r := NormalizeFrame(parsed.value);
      if r.Ok? {
        data := Some(r.value);
      }
    }

    /** `a[key]`; before `load` there is no `data` attribute. */
    function Get(k: Key): (r: Result<Selection>)
      reads this
      ensures data.None? ==> r == Err(AttributeError)
      ensures data.Some? ==> r == SubstringGet(data.value, k)
    {
      if data.None? then Err(AttributeError) else SubstringGet(data.value, k)
    }
  }

  /** The lines `load` reads: from inside the archive for a ".zip" file, else the file's. */
  function FileLines(path: LocalPath, readText: LocalPath -> seq<string>, readZip: LocalPath -> seq<string>): seq<string> {
    if IsZip(path.name) then readZip(path) else readText(path)
  }

  /** An error at position `i` of the remote loop is the outcome of the whole loop. */
  lemma DownloadErrorStays(env: Env, urls: seq<string>, i: nat, key: int, dir: seq<string>)
    requires i < |urls| && DownloadCovering(env, urls[..i + 1], key, dir).Err?
    ensures DownloadCovering(env, urls, key, dir) == DownloadCovering(env, urls[..i + 1], key, dir)
    decreases |urls| - i
  {
    if i + 1 < |urls| {
      DownloadCoveringStep(env, urls, i + 1, key, dir);
      DownloadErrorStays(env, urls, i + 1, key, dir);
    } else {
      assert urls[..i + 1] == urls;
    }
  }

  /** One more listed URL: the remote loop on the longer prefix, from the loop on the shorter. */
  lemma DownloadCoveringStep(env: Env, urls: seq<string>, i: nat, key: int, dir: seq<string>)
    requires i < |urls|
    ensures DownloadCovering(env, urls[..i], key, dir).Err? ==>
      DownloadCovering(env, urls[..i + 1], key, dir) == DownloadCovering(env, urls[..i], key, dir)
    ensures DownloadCovering(env, urls[..i], key, dir).Ok? ==>
      DownloadCovering(env, urls[..i + 1], key, dir) == CoverStep(env, DownloadCovering(env, urls[..i], key, dir).value, urls[i], key, dir)
  {
    var p := urls[..i + 1];
    assert p[..i] == urls[..i];
    assert p[i] == urls[i];
  }
}
