/** The LICA loader of sampex/load.py: exactly one local `lhrr` file or the first match in the
    archive's year directory, read and time-parsed; its accessor matches column names by
    substring. */
module LicaInstrument {
  import opened Errors
  import opened Text
  import opened DateCodec
  import opened Tables
  import opened Paths
  import opened Download
  import opened Locate

  const LicaUrlPrefix: string := "https://izw1.caltech.edu/sampex/DataCenter/DATA/LICAhires/"

  /** `f'.../LICAhires/{year}/'`. */
  function LicaUrl(d: Date): string { LicaUrlPrefix + IntToString(d.year) + "/" }

  /** `data_dir / 'LICA'`. */
  function LicaDir(env: Env): seq<string> { env.dataDir + ["LICA"] }

  /** `f"lhrr{load_date_str}*"`. */
  function LicaPattern(d: Date): string
    requires ValidDate(d)
  {
    "lhrr" + YearDoy(d) + "*"
  }

  /** From year 1000 on, the pattern is the one `date2yeardoy`'s string gives. */
  lemma LicaPatternAsWritten(d: Date)
    requires ValidDate(d) && d.year >= 1000
    ensures LicaPattern(d) == "lhrr" + Date2YearDoy(d) + "*"
  {
    Date2YearDoyAgrees(d);
  }

  /** LICA's `_find_file`: unlike HILT and PET, a second local match is an error. */
  function LicaFind(env: Env, d: Date): (r: Result<LocalPath>)
    requires ValidDate(d)
    ensures |Rglob(env.files, LicaPattern(d))| >= 2 ==> r == Err(FileNotFoundError)
    ensures |Rglob(env.files, LicaPattern(d))| == 1 ==> r == Ok(Rglob(env.files, LicaPattern(d))[0])
    ensures Rglob(env.files, LicaPattern(d)) == [] ==> r == FirstRemote(env, LicaUrl(d), LicaDir(env), LicaPattern(d))
  {
    LocateFile(env, LicaPattern(d), false, LicaUrl(d), LicaDir(env))
  }

  /** A pair of local files (a text file and its zip) that HILT or PET would accept stops
      LICA's search. */
  lemma PairRefused(env: Env, d: Date)
    requires ValidDate(d) && |Rglob(env.files, LicaPattern(d))| == 2
    ensures LicaFind(env, d) == Err(FileNotFoundError)
    ensures LocateFile(env, LicaPattern(d), true, LicaUrl(d), LicaDir(env)) == Ok(Rglob(env.files, LicaPattern(d))[0])
  {
  }

  /** `sampex.LICA`. */
  class Lica {
    const loadDate: Date
    /** `data`: None until `load` assigns it. */
    var data: Option<Frame>
    /** Whether `parse_time` warned that the time column is out of order. */
    var warned: bool

    constructor(loadDate: Date)
      ensures this.loadDate == loadDate && data.None? && !warned
    {
      this.loadDate := loadDate;
      data := None;
      warned := false;
    }

    /** `load()`: the table is stored as read, then `parse_time()` moves its time into the
        index; a file without a "Time" column stays in `data` unparsed and raises. */
    method Load(env: Env, read: LocalPath -> Frame) returns (r: Result<Frame>)
      requires ValidDate(loadDate) && forall p :: WellShaped(read(p))
      modifies this
      ensures LicaFind(env, loadDate).Err? ==> r == Err(LicaFind(env, loadDate).error) && data == old(data) && warned == old(warned)
      ensures LicaFind(env, loadDate).Ok? ==>
        var raw := read(LicaFind(env, loadDate).value);
        match Tables.ParseTime(raw, MidnightMs(loadDate), true)
        case Err(e) => r == Err(e) && data == Some(raw) && warned == old(warned)
        case Ok(p) => r == Ok(p.frame) && data == Some(p.frame) && warned == p.warned
    {
      var path := FindFile(env, LicaPattern(loadDate), false, LicaUrl(loadDate), LicaDir(env));
      if path.Err? {
        return Err(path.error);
      }
      data := Some(read(path.value));
      var parsed := ParseTime(true);
      if parsed.Err? {
        return Err(parsed.error);
      }
      return Ok(data.value);
    }

    /** `parse_time(time_index)`: parse the stored table's time column, into the index when
        `timeIndex` holds and in place otherwise. Called before any `load`, there is no table. */
    method ParseTime(timeIndex: bool) returns (r: Result<bool>)
      requires ValidDate(loadDate) && (data.Some? ==> WellShaped(data.value))
      modifies this
      ensures old(data).None? ==> r == Err(AttributeError) && data == old(data) && warned == old(warned)
      ensures old(data).Some? ==>
        match Tables.ParseTime(old(data).value, MidnightMs(loadDate), timeIndex)
        case Err(e) => r == Err(e) && data == old(data) && warned == old(warned)
        case Ok(p) => r == Ok(p.warned) && data == Some(p.frame) && warned == p.warned
    {
      if data.None? {
        return Err(AttributeError);
      }
      var parsed := Tables.ParseTime(data.value, MidnightMs(loadDate), timeIndex);
      if parsed.Err? {
        return Err(parsed.error);
      }
      warned := parsed.value.warned;
      data := Some(parsed.value.frame);
      return Ok(warned);
    }

    /** `l[key]`; before `load` there is no `data` attribute. */
    function Get(k: Key): (r: Result<Selection>)
      reads this
      ensures data.None? ==> r == Err(AttributeError)
      ensures data.Some? ==> r == SubstringGet(data.value, k)
    {
      if data.None? then Err(AttributeError) else SubstringGet(data.value, k)
    }
  }

  /** Parsing in place keeps the rows and the other columns: only "Time" takes new values. */
  lemma InPlaceKeepsColumns(f: Frame, midnight: int)
    requires WellShaped(f) && FindExact(f.columns, "Time").Some?
    ensures Tables.ParseTime(f, midnight, false).Ok?
    ensures Names(Tables.ParseTime(f, midnight, false).value.frame.columns) == Names(f.columns)
    ensures forall j :: 0 <= j < |f.columns| && f.columns[j].name != "Time" ==>
      Tables.ParseTime(f, midnight, false).value.frame.columns[j] == f.columns[j]
  {
  }
}
