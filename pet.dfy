/** The PET loader of sampex/load.py: the day's `phrr` file, found locally or under the
    archive's year directory, read with `P1_Rate` renamed to `counts` and its time parsed. */
module PetInstrument {
  import opened Errors
  import opened Text
  import opened DateCodec
  import opened Tables
  import opened Paths
  import opened Download
  import opened Locate

  const PetUrl: string := "https://izw1.caltech.edu/sampex/DataCenter/DATA/PEThires/"

  /** `data_dir / 'PET'`. */
  function PetDir(env: Env): seq<string> { env.dataDir + ["PET"] }

  /** `f"phrr{load_date_str}*"`. */
  function PetPattern(d: Date): string
    requires ValidDate(d)
  {
    "phrr" + YearDoy(d) + "*"
  }

  /** From year 1000 on, the pattern is the one `date2yeardoy`'s string gives. */
  lemma PetPatternAsWritten(d: Date)
    requires ValidDate(d) && d.year >= 1000
    ensures PetPattern(d) == "phrr" + Date2YearDoy(d) + "*"
  {
    Date2YearDoyAgrees(d);
  }

  /** `f'{year}*'`: the year directory, named `YYYY` or `YYYY.unverified`. */
  function YearPattern(d: Date): string
    requires ValidDate(d)
  {
    NatToString(d.year) + "*"
  }

  /** A year directory is any href containing the year's digits. */
  lemma YearDirectories(d: Date, hrefs: seq<string>, h: string)
    requires ValidDate(d)
    requires SearchHrefs(hrefs, YearPattern(d)).Ok?
    ensures h in SearchHrefs(hrefs, YearPattern(d)).value <==> h in hrefs && Contains(h, NatToString(d.year)) && '?' !in h
  {
    assert "" + NatToString(d.year) == NatToString(d.year);
    RemoteKeyPattern("", NatToString(d.year), hrefs, h);
  }

  /** PET's `_find_file`: one or two local matches give the first; none lists the archive,
      takes the first year directory and downloads its first matching file. */
  function PetFind(env: Env, d: Date): (r: Result<LocalPath>)
    requires ValidDate(d)
    ensures Choose(Rglob(env.files, PetPattern(d)), true).Err? ==> r == Err(FileNotFoundError)
    ensures 1 <= |Rglob(env.files, PetPattern(d))| <= 2 ==> r == Ok(Rglob(env.files, PetPattern(d))[0])
    ensures Rglob(env.files, PetPattern(d)) == [] && LsUrls(env.web, PetUrl, YearPattern(d)).Err? ==>
      r == Err(LsUrls(env.web, PetUrl, YearPattern(d)).error)
    ensures Rglob(env.files, PetPattern(d)) == [] && LsUrls(env.web, PetUrl, YearPattern(d)).Ok? ==>
      r == FirstRemote(env, LsUrls(env.web, PetUrl, YearPattern(d)).value[0], PetDir(env), PetPattern(d))
  {
    match Choose(Rglob(env.files, PetPattern(d)), true)
    case Err(e) => Err(e)
    case Ok(UseLocal(p)) => Ok(p)
    case Ok(FetchRemote) =>
      match LsUrls(env.web, PetUrl, YearPattern(d))
      case Err(e) => Err(e)
      case Ok(years) => FirstRemote(env, years[0], PetDir(env), PetPattern(d))
  }

  /** The only renaming PET applies. */
  const PetNames: map<string, string> := map["P1_Rate" := "counts"]

  /** The table right after `read_csv` and `rename`, before the time is parsed. */
  function RenamePet(raw: Frame): (r: Frame)
    ensures r.index == raw.index && |r.columns| == |raw.columns|
    ensures forall j :: 0 <= j < |raw.columns| ==>
      r.columns[j] == (if raw.columns[j].name == "P1_Rate" then Column("counts", raw.columns[j].values) else raw.columns[j])
  {
    Frame(raw.index, Rename(raw.columns, PetNames))
  }

  /** `load` after the file is read: rename, then parse the time into the index. The rename
      does not touch "Time", so the outcome depends on the file's own "Time" column. */
  function PetLoad(raw: Frame, midnight: int): (r: Result<Parsed>)
    requires WellShaped(raw)
    ensures r.Err? <==> FindExact(raw.columns, "Time").None?
    ensures r.Err? ==> r.error == MissingColumn("Time")
    ensures r.Ok? ==> r.value.frame.index == Shift(TimeOf(raw), midnight)
    ensures r.Ok? ==> r.value.frame.columns == Drop(RenamePet(raw).columns, {"Time"})
    ensures r.Ok? ==> (r.value.warned <==> exists i :: 0 <= i < |TimeOf(raw)| - 1 && TimeOf(raw)[i + 1] < TimeOf(raw)[i])
  {
    var renamed := RenamePet(raw);
    TimeSurvivesRename(raw);
    ParseTime(renamed, midnight, true)
  }

  lemma TimeSurvivesRename(raw: Frame)
    requires WellShaped(raw)
    ensures WellShaped(RenamePet(raw))
    ensures FindExact(RenamePet(raw).columns, "Time") == FindExact(raw.columns, "Time")
    ensures TimeOf(RenamePet(raw)) == TimeOf(raw)
  {
    FindAfterRename(raw.columns, PetNames, "Time", "Time");
  }

  /** After a load, `p['counts']` gives the file's first P1_Rate column, provided the file had
      no column already called "counts". */
  lemma CountsAreP1Rate(raw: Frame, midnight: int, key: string)
    requires WellShaped(raw) && PetLoad(raw, midnight).Ok?
    requires forall j :: 0 <= j < |raw.columns| ==> raw.columns[j].name != "counts"
    requires !IsTimeKey(key) && Contains(Lower(key), "count")
    ensures FindExact(raw.columns, "P1_Rate").Some? ==>
      PetGet(PetLoad(raw, midnight).value.frame, StrKey(key)) == Ok(ValuesOf(raw.columns[FindExact(raw.columns, "P1_Rate").value].values))
    ensures FindExact(raw.columns, "P1_Rate").None? ==>
      PetGet(PetLoad(raw, midnight).value.frame, StrKey(key)) == Err(MissingColumn("counts"))
  {
    var renamed := RenamePet(raw).columns;
    FindAfterRename(raw.columns, PetNames, "P1_Rate", "counts");
    DropKeepsFind(renamed, {"Time"}, "counts");
  }

  /** Dropping columns keeps the first column of any name not dropped (here, "Time"). */
  lemma {:induction false} DropKeepsFind(cols: seq<Column>, dropped: set<string>, name: string)
    requires name !in dropped
    ensures FindExact(Drop(cols, dropped), name).Some? <==> FindExact(cols, name).Some?
    ensures FindExact(cols, name).Some? ==>
      Drop(cols, dropped)[FindExact(Drop(cols, dropped), name).value] == cols[FindExact(cols, name).value]
    decreases |cols|
  {
    if cols != [] {
      DropKeepsFind(cols[1..], dropped, name);
      var rest := Drop(cols[1..], dropped);
      if cols[0].name in dropped {
        assert Drop(cols, dropped) == rest;
      } else {
        assert Drop(cols, dropped) == [cols[0]] + rest;
        FindAfterCons(cols[0], rest, name);
      }
    }
  }

  /** A lookup past a first column of another name is the lookup in the rest, one further on. */
  lemma FindAfterCons(c: Column, rest: seq<Column>, name: string)
    ensures c.name == name ==> FindExact([c] + rest, name) == Some(0)
    ensures c.name != name ==>
      FindExact([c] + rest, name) == (match FindExact(rest, name) case None => None case Some(k) => Some(k + 1))
  {
    assert ([c] + rest)[1..] == rest;
  }

  /** `p['P1']` is refused whatever was loaded: it mentions neither "time" nor "count". */
  lemma P1Refused(f: Frame)
    ensures PetGet(f, StrKey("P1")) == Err(KeyError(Names(f.columns)))
  {
    var l := Lower("P1");
    assert l == "p1";
    ContainsIff(l, "time");
    ContainsIff(l, "count");
  }

  /** `sampex.PET`. */
  class Pet {
    const loadDate: Date
    /** `data`: None until `load` assigns it. */
    var data: Option<Frame>
    /** Whether `parse_time` warned that the time column is out of order. */
    var warned: bool

    constructor(loadDate: Date)
      ensures this.loadDate == loadDate && data.None? && !warned
    {
      this.loadDate := loadDate;
      data := None;
      warned := false;
    }

    /** `_find_file` through `Downloader` objects. */
    static method FindFile(env: Env, d: Date) returns (r: Result<LocalPath>)
      requires ValidDate(d)
      ensures r == PetFind(env, d)
    {
      var matches := Rglob(env.files, PetPattern(d));
      var choice := Choose(matches, true);
      if choice.Err? {
        return Err(choice.error);
      }
      if choice.value.UseLocal? {
        return Ok(choice.value.path);
      }
      var root := new Downloader(PetUrl, Some(PetDir(env)));
      var years := root.Ls(env.web, YearPattern(d));
      if years.Err? {
        return Err(years.error);
      }
      var yearDir := years.value[0];
      r := FetchFirst(env, yearDir.url, PetDir(env), PetPattern(d));
    }

    /** `load()`: the renamed table is stored before the time is parsed, so a file without a
        "Time" column leaves it in `data` and raises. */
    method Load(env: Env, read: LocalPath -> Frame) returns (r: Result<Frame>)
      requires ValidDate(loadDate) && forall p :: WellShaped(read(p))
      modifies this
      ensures PetFind(env, loadDate).Err? ==> r == Err(PetFind(env, loadDate).error) && data == old(data) && warned == old(warned)
      ensures PetFind(env, loadDate).Ok? ==>
        var raw := read(PetFind(env, loadDate).value);
        match PetLoad(raw, MidnightMs(loadDate))
        case Err(e) => r == Err(e) && data == Some(RenamePet(raw)) && warned == old(warned)
        case Ok(p) => r == Ok(p.frame) && data == Some(p.frame) && warned == p.warned
    {
      var path := FindFile(env, loadDate);
      if path.Err? {
        return Err(path.error);
      }
      var raw := read(path.value);
      data := Some(RenamePet(raw));
      TimeSurvivesRename(raw);
      var parsed := ParseTime(data.value, MidnightMs(loadDate), true);
      if parsed.Err? {
        return Err(parsed.error);
      }
      warned := parsed.value.warned;
      data := Some(parsed.value.frame);
      return Ok(parsed.value.frame);
    }

    /** `p[key]`: a non-string key is refused before `data` is read; a string key before
        `load` finds no `data` attribute. */
    function Get(k: Key): (r: Result<Selection>)
      reads this
      ensures k.OtherKey? ==> r == Err(KeyError([]))
      ensures k.StrKey? && data.None? ==> r == Err(AttributeError)
      ensures data.Some? ==> r == PetGet(data.value, k)
    {
      if k.OtherKey? then Err(KeyError([]))
      else if data.None? then Err(AttributeError)
      else PetGet(data.value, k)
    }
  }
}
