# sampex loaders and downloader, modelled in Dafny

This project models the core of the `sampex` Python package. The package loads data files
of the SAMPEX satellite, and its core consists of `sampex/load.py` and `sampex/download.py`.

- **HILT, PET and LICA loaders.** Each one turns a date into a `YYYYDOY` key and searches the
  data directory for the day's file. When no local file matches, it lists the Caltech
  archive and downloads the first match. It then reads the table and turns the "Time"
  column (time of day) into timestamps.
  - HILT also picks its instrument state from the date.
  - HILT then either renames the channels (state 1) or interleaves five channels into a
    20 ms series (states 2 and 4).
- **Attitude loader.** It picks the multi-day `PSSet_6sec_<start>_<end>.txt` file that
  covers the day, skips the file's header and reads twelve fixed columns. It builds
  timestamps from Year, Day-of-year and Sec_of_day, and maps longitudes into [-180, 180).
- **Accessors.** The `__getitem__` lookups of all four classes are modelled.
- **`Downloader`.** Covers listing a page through `ls` / `_search_hrefs`, `download`
  (including the streamed progress bar) and `name`.

Exact counterparts of the Python:

- Python's `re.search`, the `*`-to-`.*` rewrite and the `?` filter.
- `pathlib` suffixes, `rglob` and sorted path order.
- `strptime("%Y%j")` and pandas `"%Y-%j"` parsing, including the day-366 roll-over.
- `re.findall(r"\d+")`, over ASCII digits.
- `urljoin` for listing references.
- `round` (ties to even).
- `np.mod`.

How the model is organised:

- **Classes.** Objects whose fields the source updates are classes: `Downloader`, `Hilt`,
  `Pet`, `Lica` and `Attitude`.
  - Their methods are proved against specification functions: `HiltOpen`, `HiltLoad`,
    `PetFind`, `PetLoad`, `LicaFind`, `AttitudeFind`, `AttitudeLoad`, `LoadedData`,
    `DownloadSpec` and `LsUrls`.
  - HILT's `counts` and `times` are arrays filled stride by stride, as the source's `[i::5]`
    slices do.
- **Parameters in place of I/O.**
  - The file system is a list of paths in `rglob` order plus the set of existing paths.
  - The web is a map from URL to status, hrefs and body chunks.
  - Reading a file is a function parameter.
- **Units.** Times are integer milliseconds, with the day's midnight counted from
  0001-01-01. Longitudes are in hundredths of a degree.
- **HILT zip branch.** HILT's `load` compares `file_path.suffix` with `"zip"`. A `pathlib`
  suffix always starts with a dot, so that branch can never run (`Paths.SuffixNeverZip`,
  `Paths.HiltZipName`). The model keeps the branch unreachable, as the source has it.

## Model

| member | source | states |
|---|---|---|
| DateCodec.YearDoy | sampex/load.py:690-713 | the YEARDOY key is 7 digits: the year zero-filled to 4, then the day of year zero-filled to 3 |
| DateCodec.Date2YearDoyAgrees | sampex/load.py:713 | for years of at least four digits, `date2yeardoy` as written equals the YEARDOY key |
| DateCodec.YearDoyValue | sampex/load.py:713 | read as an integer, the key is `year * 1000 + day of year`, which is the integer the loaders compare |
| DateCodec.KeyOrder | sampex/load.py:194-206 | the integer key grows strictly with the calendar, in both directions |
| DateCodec.KeyInjective | sampex/load.py:194-206 | distinct days have distinct keys |
| DateCodec.FromJulian | sampex/load.py:731 | `strptime` builds the date from year and day number; accepted iff the year is 1..9999 and the day fits (or rolls into a next year that exists); day 366 of a common year gives 1 January of the next year; ValueError otherwise |
| DateCodec.YearDoy2Date | sampex/load.py:716-731 | `strptime(s, "%Y%j")` accepts only 5..7 digits, and the result is a valid date; ValueError otherwise |
| DateCodec.YearDoyRoundTrip | sampex/load.py:690-731 | `yeardoy2date(YearDoy(d)) == d` for every valid day, day 366 included |
| DateCodec.CommonYearDay366 | sampex/load.py:731 | "YYYY366" in a common year reads as 1 January of YYYY+1 |
| DateCodec.ShortYearBreaksRoundTrip | sampex/load.py:713 | 999-01-01 gives "999001", which reads back as 9990-01-01 |
| DateCodec.OrdinalOrder | sampex/load.py:182 | midnights are strictly ordered like the calendar days |
| Text.DigitRunsDigits | sampex/load.py:627 | every run found by `re.findall(r"\d+")` is a nonempty string of digits |
| Text.DigitRunsAppend | sampex/load.py:627 | digit runs of a concatenation split at a non-digit boundary are the runs of the parts |
| Tables.FindExact | sampex/load.py:139 | the first column of the name, or None exactly when no column has it |
| Tables.FindSubstring | sampex/load.py:462-464 | the first column whose lower-cased name contains the lower-cased key, or None exactly when none does |
| Tables.Rename | sampex/load.py:120-123 | renaming keeps the values and maps each name present in the mapping |
| Tables.FindAfterRename | sampex/load.py:120-123 | when exactly the columns named `a` are renamed to `b`, the first `b` after renaming is the first `a` before |
| Tables.DropMembers | sampex/load.py:184 | a column survives iff its name is not dropped |
| Tables.OutOfOrderIff | sampex/load.py:177-179 | the warning test `any(t[1:] < t[:-1])` holds iff some sample is smaller than its predecessor |
| Tables.InOrderSorted | sampex/load.py:177-179 | without the warning the time column is sorted (every pair, not only neighbours) |
| Tables.ShiftKeepsOrder | sampex/load.py:181-183 | adding the day's midnight keeps the order of every pair, so the warning is the same before and after |
| Tables.ParseTime | sampex/load.py:172-185 | `parse_time`: KeyError iff no "Time" column; warns iff the column decreases somewhere; with the time as index, the index is midnight plus the samples and "Time" is dropped; in place, only "Time" changes |
| Tables.ParseTimeKeepsRows | sampex/load.py:172-185 | parsing a table with "Time" succeeds and keeps the number of rows and the order of the timestamps |
| Tables.HiltGet | sampex/load.py:130-144 | a key containing "time" (any case) gives the index; any other string gives the column of exactly that name, else KeyError listing the columns; a non-string is refused |
| Tables.PetGet | sampex/load.py:311-324 | "time" gives the index; a key with "count" gives the "counts" column; anything else is a KeyError |
| Tables.SubstringGet | sampex/load.py:454-468 | "time" gives the index; otherwise the first column whose name contains the key, else KeyError |
| Tables.ExactImpliesSubstring | sampex/load.py:454-468 | any key HILT's exact lookup accepts, the substring lookup accepts too |
| Tables.EmptyKeyFirstColumn | sampex/load.py:462-464 | the empty key selects the first column |
| Paths.GlobPrefix | sampex/load.py:76-77 | a pattern `<literal>*` matches exactly the names starting with the literal |
| Paths.Rglob | sampex/load.py:77 | the matches are exactly the entries whose name matches the pattern, in walk order |
| Paths.RglobFirst | sampex/load.py:82 | the first match is the first matching entry of the walk |
| Paths.Suffix | sampex/load.py:112 | a suffix is empty or starts with '.' and has at least one more character |
| Paths.SuffixNeverZip | sampex/load.py:112 | no name has the suffix "zip", so HILT's zip branch never runs |
| Paths.ZipSuffix | sampex/load.py:562 | the suffix is ".zip" iff the name ends in ".zip" after at least one other character |
| Paths.HiltZipName | sampex/load.py:112 | a HILT archive name has the suffix ".zip", which the comparison with "zip" misses |
| Paths.PathOrder | sampex/load.py:623-625 | the sorting order on paths is irreflexive, total and transitive |
| Paths.SortPaths | sampex/load.py:623-625 | `sorted` returns a permutation of its input |
| Paths.SortPathsSorted | sampex/load.py:623-625 | `sorted` output is in path order and is a permutation |
| Download.StatusRejectedRange | sampex/download.py:61-64 | `status // 100 in [4, 5]` holds iff the status is 400..599 |
| Download.TranslateCompiles | sampex/download.py:163-164 | the rewritten pattern always compiles, to the pieces the glob-like pattern stands for |
| Download.SearchIff | sampex/download.py:164 | `re.search` finds a match iff one starts at some position |
| Download.LiteralStarSearch | sampex/download.py:163-164 | for a literal without '*' and '.', `literal*` finds exactly the hrefs containing the literal anywhere |
| Download.KeepHrefs | sampex/download.py:164-167 | the kept hrefs are those the pattern finds and that hold no '?', in page order |
| Download.SearchHrefs | sampex/download.py:137-173 | `_search_hrefs`: the kept hrefs, or FileNotFoundError exactly when none is kept |
| Download.DefaultPatternKeepsAll | sampex/download.py:137 | the default pattern `*` keeps every href without '?' |
| Download.UrlJoinRelative | sampex/download.py:70 | a plain relative name is appended to a directory URL |
| Download.UrlName | sampex/download.py:131-135 | the name is the last nonempty component, without '/' |
| Download.NameAfterSlash | sampex/download.py:131-135 | `name()` of `dir/seg` is `seg` |
| Download.NameOfDirectory | sampex/download.py:131-135 | `name()` of a directory URL ending in '/' is the directory's name |
| Download.RoundHalfEven | sampex/download.py:120 | `round(n / d)` is the nearest integer, ties to even |
| Download.StepBounded | sampex/download.py:119-122 | while at most Content-Length bytes have arrived, the percent is at most 100 and the bar at most 20 marks; both are full at the end |
| Download.ProgressionBytes | sampex/download.py:116-119 | after the i-th chunk the byte count is the running sum of the chunk lengths |
| Download.LsUrls | sampex/download.py:45-72 | `ls`: RequestFailed for an unreachable host, ConnectionError for a 4xx/5xx status, otherwise each kept href joined to the URL |
| Download.LsChildren | sampex/download.py:69-71 | under a directory URL, each child URL is the directory plus the href, and its name is the href |
| Download.EffectiveDir | sampex/download.py:94-98 | the argument directory wins, else the stored one, else ValueError |
| Download.DownloadSpec | sampex/download.py:74-129 | the destination is dir/name; an existing file is kept unless overwriting; a download that is not streamed succeeds exactly when the file is kept or the URL is served; a streamed one succeeds exactly when the file is kept, or the URL is served with a Content-Length that is positive or comes with an empty body, and it reports the running byte count per chunk; RequestFailed iff an uncached URL is not served, TypeError iff a streamed one has no Content-Length, ZeroDivisionError iff a streamed one has Content-Length 0 and chunks |
| Download.StreamBarBounded | sampex/download.py:108-123 | a streamed body no longer than its Content-Length never shows more than 20 marks |
| Download.Downloader.Ls | sampex/download.py:45-72 | the children carry exactly the listed URLs and the parent's download directory |
| Download.Downloader.Download | sampex/download.py:74-129 | stores the argument directory and returns what `DownloadSpec` gives for the effective directory |
| Locate.Choose | sampex/load.py:81-94 | one match (two when a file and its zip are allowed) is used; none goes remote; more raise FileNotFoundError |
| Locate.ExactOneStricter | sampex/load.py:438-451 | LICA's exact-one rule accepts fewer cases than HILT's and PET's and decides the same where it accepts |
| Locate.FirstRemote | sampex/load.py:85-90 | a failed listing is passed on; after a listing, the result is Ok exactly when the first listed URL is served or already saved, and it is that file under the instrument's directory |
| Locate.FetchFirst | sampex/load.py:85-90 | the `Downloader` steps compute `FirstRemote` |
| Locate.LocateFile | sampex/load.py:76-94 | too many local matches fail; no local match goes remote; otherwise the first local match is used |
| Locate.FindFile | sampex/load.py:76-94 | the imperative search computes `LocateFile` |
| Locate.LocalNeedsNoServer | sampex/load.py:81-82 | a usable local match makes the servers irrelevant |
| Locate.CachedNeedsNoBody | sampex/download.py:105-106 | an already downloaded first match is returned without a body |
| Locate.KeyPattern | sampex/load.py:76-77 | locally, `<prefix><key>*` selects names that start with prefix and key |
| Locate.RemoteKeyPattern | sampex/download.py:163-167 | remotely, the same pattern keeps every '?'-free href that contains prefix and key anywhere |
| HiltInstrument.HiltState | sampex/load.py:194-206 | the state table as key ranges, each an iff; ValueError outside them |
| HiltInstrument.StateByDate | sampex/load.py:194-206 | the same table in calendar dates, e.g. state 2 iff 1994-05-17..1994-08-25 |
| HiltInstrument.ExampleDays | sampex/load.py:194-206 | 1992-10-04 is in state 1 and 1999-08-17 in state 4 |
| HiltInstrument.HiltOpen | sampex/load.py:63-95 | the state is the argument or the table's; the path is what the search with the state's URL and directory finds |
| HiltInstrument.HiltPatternPrefix | sampex/load.py:76 | `hhrr<key>*` selects the names starting with "hhrr" and the key |
| HiltInstrument.HiltPatternAsWritten | sampex/load.py:76 | from year 1000 on, the pattern built from the padded key equals the source's `f"hhrr{load_date_str}*"` |
| HiltInstrument.Gather | sampex/load.py:222-225 | the listed channels in order, or an error exactly when one is missing |
| HiltInstrument.Reshape20ms | sampex/load.py:208-231 | five samples per row, one "counts" column; an error iff Rate1..Rate4 or Rate6 is missing |
| HiltInstrument.ReshapeAt | sampex/load.py:221-230 | sample 5k+i is row k of channel i (Rate6 for i = 4), at the row's time plus 20·i ms |
| HiltInstrument.HiltLoad | sampex/load.py:97-128 | parse the time, then rename (state 1), reshape (states 2 and 4) or NotImplementedError |
| HiltInstrument.State1Rows | sampex/load.py:119-123 | state 1 keeps the rows and every column but "Time" |
| HiltInstrument.RenamedChannel | sampex/load.py:120-123 | "SSD1" after renaming is exactly the first "Rate1" before |
| HiltInstrument.State4HasNoSSD1 | sampex/load.py:124-142 | after a state-4 load, `h['SSD1']` is a KeyError listing only "counts" |
| HiltInstrument.Hilt.Open | sampex/load.py:63-95 | the constructor's state and file are those of `HiltOpen` |
| HiltInstrument.Hilt.Load | sampex/load.py:97-128 | returns `HiltLoad` of the file read and stores it in `data`. It records the warning. `_hilt_csv` ends as the parsed table, or as the raw one when parsing fails. `counts`/`times` are filled in states 2 and 4 and left alone otherwise |
| HiltInstrument.Hilt.DispatchState | sampex/load.py:119-127 | the state switch on the parsed table; `counts`/`times` change only when a state 2 or 4 reshape succeeds |
| HiltInstrument.Hilt.Reshape20msState | sampex/load.py:208-231 | the arrays hold exactly the reshaped counts and times |
| HiltInstrument.Hilt.Get | sampex/load.py:130-144 | a non-string key is a KeyError, also before any load; a string key before a load is an AttributeError; after a load the result is `HiltGet` |
| HiltInstrument.StridedCounts | sampex/load.py:221-225 | the array built slice by slice equals the interleaving of the channels |
| HiltInstrument.StridedTimes | sampex/load.py:228-230 | the array built slice by slice equals the 20 ms sub-samples |
| HiltInstrument.FillStrided | sampex/load.py:223 | `a[i::5] = values` sets exactly the positions ≡ i (mod 5) and leaves the rest |
| PetInstrument.YearDirectories | sampex/load.py:342-343 | the year pattern keeps every '?'-free href containing the year's digits |
| PetInstrument.PetFind | sampex/load.py:326-350 | one or two local matches give the first; none lists the year directories and downloads from the first |
| PetInstrument.PetPatternAsWritten | sampex/load.py:330 | from year 1000 on, the pattern built from the padded key equals the source's `f"phrr{load_date_str}*"` |
| PetInstrument.RenamePet | sampex/load.py:292 | only "P1_Rate" is renamed, to "counts" |
| PetInstrument.PetLoad | sampex/load.py:281-309 | KeyError iff the file has no "Time"; the index is midnight plus the file's times; warned iff they decrease |
| PetInstrument.TimeSurvivesRename | sampex/load.py:292-293 | renaming keeps the shape and the "Time" column |
| PetInstrument.CountsAreP1Rate | sampex/load.py:292-319 | after loading, `p['counts']` is the file's first P1_Rate column, or a KeyError without one |
| PetInstrument.DropKeepsFind | sampex/load.py:308 | deleting columns ("Time" here) keeps the first column of every name not deleted |
| PetInstrument.P1Refused | sampex/load.py:315-322 | `p['P1']` is always a KeyError |
| PetInstrument.Pet.FindFile | sampex/load.py:326-350 | the `Downloader` steps compute `PetFind` |
| PetInstrument.Pet.Load | sampex/load.py:281-309 | the renamed table is stored before parsing, so a missing "Time" leaves it in `data` and no warning is recorded |
| PetInstrument.Pet.Get | sampex/load.py:311-324 | a non-string key is a KeyError, also before loading; a string key before loading is an AttributeError; after loading the result is `PetGet` |
| LicaInstrument.LicaFind | sampex/load.py:432-452 | exactly one local match, none goes to the year's directory, two or more fail |
| LicaInstrument.LicaPatternAsWritten | sampex/load.py:436 | from year 1000 on, the pattern built from the padded key equals the source's `f"lhrr{load_date_str}*"` |
| LicaInstrument.PairRefused | sampex/load.py:438-451 | a file and its zip stop LICA but would be accepted by HILT and PET |
| LicaInstrument.Lica.Load | sampex/load.py:401-413 | the raw table is stored, then parsed with the time as index; a failed parse leaves the raw table and the warning flag as they were |
| LicaInstrument.Lica.ParseTime | sampex/load.py:415-430 | AttributeError before any load; otherwise `Tables.ParseTime` on the stored table |
| LicaInstrument.InPlaceKeepsColumns | sampex/load.py:425-430 | parsing in place keeps the names and every column but "Time" |
| LicaInstrument.Lica.Get | sampex/load.py:454-468 | AttributeError before loading, `SubstringGet` afterwards |
| AttitudeFiles.CoversFileName | sampex/load.py:627-634 | `PSSet_6sec_<s>_<e>.txt` covers exactly the keys from s to e (the "6" is the skipped run) |
| AttitudeFiles.FileNameRuns | sampex/load.py:627 | such a name has the digit runs "6", s, e |
| AttitudeFiles.LastCovering | sampex/load.py:621-636 | the last covering file, None iff none covers, ValueError iff some name does not have exactly three digit runs |
| AttitudeFiles.DownloadCovering | sampex/load.py:638-656 | an Ok result of the remote loop is the file `LastCovering` chooses among the listed names; an unpackable name is an error |
| AttitudeFiles.DownloadCoveringSucceeds | sampex/load.py:652-655 | when every listed name unpacks, the remote loop succeeds exactly when every covering file downloads, so an error then means a covering download failed |
| AttitudeFiles.FetchIfCovering | sampex/load.py:652-654 | one loop turn: a covering file is downloaded with progress, others keep the previous choice |
| AttitudeFiles.AttitudeFind | sampex/load.py:607-619 | the local choice, else the remote one, else FileNotFoundError; name errors are ValueError |
| AttitudeFiles.LocalChoiceGreatest | sampex/load.py:621-636 | the local choice is an attitude file below the data directory that covers the day, and it is the greatest such file in path order |
| AttitudeFiles.NothingCovers | sampex/load.py:614-617 | with no covering file locally or in the archive, the result is FileNotFoundError |
| AttitudeFiles.DataStart | sampex/load.py:659-671 | data starts two lines after the first "BEGIN DATA" line, or at the end without one; StopIteration when the marker is the last line |
| AttitudeFiles.SkipHeader | sampex/load.py:659-671 | the line loop computes `DataStart` |
| AttitudeFiles.ReadTable | sampex/load.py:546-581 | the twelve default columns by field position, rows numbered from 0; ParserError iff a row lacks field 71 |
| AttitudeFiles.PandasDate | sampex/load.py:680-681 | `"%Y-%j"` accepts 4-digit years and days 1..366; the result has that year and day, and day 366 of a common year rolls over |
| AttitudeFiles.PandasDateRoundTrip | sampex/load.py:680-681 | a date's own Year and Day-of-year give it back |
| AttitudeFiles.RowDates | sampex/load.py:678-681 | the conversion fails iff some row fails; otherwise each row's date |
| AttitudeFiles.StampsOrder | sampex/load.py:683 | with Sec_of_day inside the day, an earlier key gives an earlier timestamp |
| AttitudeFiles.ParseAttitudeDatetime | sampex/load.py:673-687 | KeyError for missing Year/Day-of-year; ValueError iff a row's date fails; index is midnight plus 1000·Sec_of_day; the three columns are dropped iff asked |
| AttitudeFiles.NormalizeLongitude | sampex/load.py:585 | the result is in [-180, 180), congruent to the input mod 360, and equal to the input when already in range |
| AttitudeFiles.NormalizeFrame | sampex/load.py:585 | only "GEO_Long" changes, to the normalised values; KeyError without it |
| AttitudeFiles.LoadedDataIsResult | sampex/load.py:583-586 | after a successful load, `data` is the returned table |
| AttitudeFiles.LoadedLongitudes | sampex/load.py:585 | every GEO_Long value of a loaded table is in [-180, 180) |
| AttitudeFiles.DefaultYearColumn | sampex/load.py:546-581 | Year is row i's field 0, counted from the first data line |
| AttitudeFiles.Attitude.Open | sampex/load.py:516-526 | construction finds the file; it fails exactly as `AttitudeFind` does |
| AttitudeFiles.Attitude.FindAttitudeFile | sampex/load.py:607-619 | computes `AttitudeFind` and stores it |
| AttitudeFiles.Attitude.FindLocalFile | sampex/load.py:621-636 | the loop over the sorted matches computes `LastCovering` |
| AttitudeFiles.Attitude.DownloadRemoteFile | sampex/load.py:638-656 | lists the archive and runs the remote loop |
| AttitudeFiles.Attitude.FetchCovering | sampex/load.py:650-656 | the loop over the listed `Downloader`s computes `DownloadCovering` |
| AttitudeFiles.Attitude.Load | sampex/load.py:528-586 | returns `AttitudeLoad` of the lines (from inside the zip for a ".zip" file); `data` holds the table of the last step that succeeded |
| AttitudeFiles.Attitude.LoadLines | sampex/load.py:567-586 | header skip, read, datetime parse and longitude map, with `data` assigned after each step |
| AttitudeFiles.Attitude.Get | sampex/load.py:588-605 | AttributeError before loading, `SubstringGet` afterwards |

## Left out

- Console output is not modelled: `verbose` messages, the progress line printed by
  `download` and the warning text. The progress values are modelled; only the printing is
  left out.
- The outside world is replaced by values. Network requests, the HTML parser, mkdir and file
  writes become the `Web` map, the list of files in `rglob` order and the set of existing
  paths.
  - A download that fails half way is not modelled.
  - Between two downloads of the attitude loop, the set of existing paths is not updated.
  - `ls` is modelled as one GET whose status and hrefs come from the same page.
- `pd.read_csv` of the HILT, PET and LICA files is a parameter, and so is how an attitude
  line splits into fields. HILT's `read_zip` and `extract` are not modelled, because the
  zip branch cannot run.
- Numbers are integers. Times are milliseconds of the day and attitude Sec_of_day is whole
  seconds. Floating-point samples and NaN are not modelled.
  - HILT's `counts` array also starts as float NaN before the channels are copied in.
  - When a channel is missing, the source leaves `counts` partly filled. The model
    re-creates both arrays only on success.
- AttitudeFiles.ReadTable: a row that lacks field 71 is treated as a ParserError, where
  pandas may instead fill the missing fields with NaN. A blank line after the header is
  also a short row here, while `read_csv` skips blank lines. Only the default columns are
  read; a custom `columns` mapping is not modelled.
- AttitudeFiles.PandasDate: pandas' Timestamp range (1677..2262) is not enforced; any 4-digit
  year is accepted.
- HiltInstrument.Hilt.Load: `pd.Timestamp(load_date.date())` raises OutOfBoundsDatetime
  outside pandas' nanosecond range (about 1677-09-22 to 2262-04-11). The model's time parse
  accepts every valid date, so that error path is not modelled.
- PetInstrument.Pet.Load: the same pandas Timestamp range is not enforced when the time is
  parsed, so OutOfBoundsDatetime is not modelled.
- LicaInstrument.Lica.Load: the same pandas Timestamp range is not enforced when the time is
  parsed, so OutOfBoundsDatetime is not modelled.
- LicaInstrument.Lica.ParseTime: the same pandas Timestamp range is not enforced, so
  OutOfBoundsDatetime is not modelled.
- An attitude file without "BEGIN DATA" is modelled as an empty table. pandas reading an
  empty stream with `names` set is assumed to give an empty frame.
- Lower-casing is ASCII only, and so are digits: `\d` and `strptime`'s `%Y`/`%j` accept
  only 0-9 here, while Python's also match other Unicode decimal digits. Glob patterns
  support only `*`, not `?` or `[...]`. Regular-expression metacharacters in patterns other than `.` and `*` are not modelled.
  `urljoin` handles only absolute and plain relative references, not dot segments.
- The file patterns are built from the zero-padded `YYYYDOY` key, the corrected form of
  the load.py:713 finding below. The source's unpadded `date2yeardoy` string gives a
  different pattern for years below 1000. The `...PatternAsWritten` lemmas prove the two
  patterns agree from year 1000 on. Each affected member follows:
- HiltPatternPrefix: describes `hhrr<padded key>*`. For years below 1000 the source
  searches `hhrr<unpadded key>*`.
- HiltOpen: searches with the padded key. The state override is the only way a year below
  1000 reaches the search; the source's search then differs.
- PetFind: globs and lists with the padded key. For years below 1000 the source uses the
  unpadded one.
- LicaFind: globs and lists with the padded key. For years below 1000 the source uses the
  unpadded one.
- `dateutil.parser.parse` of a string date is not modelled; the loaders take a `Date`.
- `Downloader.__repr__` and `__str__`, the plotting modules and the package's entry points
  are not part of this model.

## Findings

| source | as written | input that shows it | evidently intended | confidence | as-written member | corrected member |
|---|---|---|---|---|---|---|
| sampex/load.py:713 | `f"{day.year}{doy}"` leaves the year unpadded | 999-01-01 gives "999001", and `yeardoy2date` reads that as 9990-01-01 | a 4-digit zero-padded year, so that `yeardoy2date(date2yeardoy(d)) == d` | not executed | DateCodec.ShortYearBreaksRoundTrip | DateCodec.YearDoyRoundTrip |
