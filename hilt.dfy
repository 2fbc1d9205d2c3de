/** The HILT loader of sampex/load.py: the instrument state of a day, the search for the
    day's file, and `load`, which parses the time column and then either renames the state-1
    rate columns or spreads each state-2/4 row over five 20 ms samples. */
module HiltInstrument {
  import opened Errors
  import opened Text
  import opened DateCodec
  import opened Tables
  import opened Paths
  import opened Download
  import opened Locate

  /** `_get_state`: the first branch of the chain whose closed range holds the key. The
      ranges of states 2 and 3 share 1994237 and those of states 1 and 4 share 1996220; the
      earlier branch wins both. */
  function HiltState(key: int): (r: Result<int>)
    ensures r == Ok(1) <==> (1992187 <= key <= 1994069) || (1996044 <= key <= 1996220)
    ensures r == Ok(2) <==> 1994137 <= key <= 1994237
    ensures r == Ok(3) <==> 1994238 <= key <= 1995322
    ensures r == Ok(4) <==> 1996221 <= key <= 2012312
    ensures r.Ok? ==> r.value in {1, 2, 3, 4}
    ensures r.Err? ==> r.error == ValueError
  {
    if (key >= 1992187 && key <= 1994069) || (key >= 1996044 && key <= 1996220) then Ok(1)
    else if key >= 1994137 && key <= 1994237 then Ok(2)
    else if key >= 1994237 && key <= 1995322 then Ok(3)
    else if key >= 1996220 && key <= 2012312 then Ok(4)
    else Err(ValueError)
  }

  /** `lo <= d <= hi` in the calendar. */
  predicate Within(d: Date, lo: Date, hi: Date) { !Before(d, lo) && !Before(hi, d) }

  lemma KeysOfStateBoundaries1()
    ensures ValidDate(Date(1992, 7, 5)) && YearDoyKey(Date(1992, 7, 5)) == 1992187
    ensures ValidDate(Date(1994, 3, 10)) && YearDoyKey(Date(1994, 3, 10)) == 1994069
    ensures ValidDate(Date(1996, 2, 13)) && YearDoyKey(Date(1996, 2, 13)) == 1996044
    ensures ValidDate(Date(1996, 8, 7)) && YearDoyKey(Date(1996, 8, 7)) == 1996220
  {
  }

  lemma KeysOfStateBoundaries2()
    ensures ValidDate(Date(1994, 5, 17)) && YearDoyKey(Date(1994, 5, 17)) == 1994137
    ensures ValidDate(Date(1994, 8, 25)) && YearDoyKey(Date(1994, 8, 25)) == 1994237
    ensures ValidDate(Date(1994, 8, 26)) && YearDoyKey(Date(1994, 8, 26)) == 1994238
    ensures ValidDate(Date(1995, 11, 18)) && YearDoyKey(Date(1995, 11, 18)) == 1995322
  {
  }

  lemma KeysOfStateBoundaries3()
    ensures ValidDate(Date(1996, 8, 8)) && YearDoyKey(Date(1996, 8, 8)) == 1996221
    ensures ValidDate(Date(2012, 11, 7)) && YearDoyKey(Date(2012, 11, 7)) == 2012312
  {
  }

  /** `lo <= d <= hi` in the calendar is `key(lo) <= key(d) <= key(hi)`. */
  lemma WithinKeys(d: Date, lo: Date, hi: Date)
    requires ValidDate(d) && ValidDate(lo) && ValidDate(hi)
    ensures Within(d, lo, hi) <==> YearDoyKey(lo) <= YearDoyKey(d) <= YearDoyKey(hi)
  {
    KeyOrder(d, lo);
    KeyOrder(hi, d);
  }

  /** The state table in calendar terms: state 1 from 1992-07-05 to 1994-03-10 and from
      1996-02-13 to 1996-08-07, state 2 from 1994-05-17 to 1994-08-25, state 3 from
      1994-08-26 to 1995-11-18 and state 4 from 1996-08-08 to 2012-11-07. */
  lemma StateByDate(d: Date)
    requires ValidDate(d)
    ensures HiltState(YearDoyKey(d)) == Ok(1) <==>
      Within(d, Date(1992, 7, 5), Date(1994, 3, 10)) || Within(d, Date(1996, 2, 13), Date(1996, 8, 7))
    ensures HiltState(YearDoyKey(d)) == Ok(2) <==> Within(d, Date(1994, 5, 17), Date(1994, 8, 25))
    ensures HiltState(YearDoyKey(d)) == Ok(3) <==> Within(d, Date(1994, 8, 26), Date(1995, 11, 18))
    ensures HiltState(YearDoyKey(d)) == Ok(4) <==> Within(d, Date(1996, 8, 8), Date(2012, 11, 7))
  {
    KeysOfStateBoundaries1();
    KeysOfStateBoundaries2();
    KeysOfStateBoundaries3();
    WithinKeys(d, Date(1992, 7, 5), Date(1994, 3, 10));
    WithinKeys(d, Date(1996, 2, 13), Date(1996, 8, 7));
    WithinKeys(d, Date(1994, 5, 17), Date(1994, 8, 25));
    WithinKeys(d, Date(1994, 8, 26), Date(1995, 11, 18));
    WithinKeys(d, Date(1996, 8, 8), Date(2012, 11, 7));
  }

  /** The days of the two HILT examples: 1992-10-04 is state 1 and 1999-08-17 state 4. */
  lemma ExampleDays()
    ensures ValidDate(Date(1992, 10, 4)) && HiltState(YearDoyKey(Date(1992, 10, 4))) == Ok(1)
    ensures ValidDate(Date(1999, 8, 17)) && HiltState(YearDoyKey(Date(1999, 8, 17))) == Ok(4)
  {
    assert YearDoyKey(Date(1992, 10, 4)) == 1992278;
    assert YearDoyKey(Date(1999, 8, 17)) == 1999229;
  }

  const HiltUrlPrefix: string := "https://izw1.caltech.edu/sampex/DataCenter/DATA/HILThires/State"

  /** The archive directory of a state. */
  function HiltUrl(state: int): string { HiltUrlPrefix + IntToString(state) + "/" }

  /** `data_dir / 'HILT' / f'State{state}'`. */
  function HiltDir(env: Env, state: int): seq<string> { env.dataDir + ["HILT", "State" + IntToString(state)] }

  /** `f"hhrr{load_date_str}*"`. */
  function HiltPattern(d: Date): string
    requires ValidDate(d)
  {
    "hhrr" + YearDoy(d) + "*"
  }

  /** What `__init__` settles: the state and the file. */
  datatype Opened = Opened(state: int, path: LocalPath)

  /** `HILT.__init__`: the state given, or the one of the day; then one or two local matches,
      or the first match listed in the state's archive directory. */
  function HiltOpen(d: Date, stateOverride: Option<int>, env: Env): (r: Result<Opened>)
    requires ValidDate(d)
    ensures stateOverride.None? && HiltState(YearDoyKey(d)).Err? ==> r == Err(ValueError)
    ensures r.Ok? ==> r.value.state == (if stateOverride.Some? then stateOverride.value else HiltState(YearDoyKey(d)).value)
    ensures r.Ok? ==> LocateFile(env, HiltPattern(d), true, HiltUrl(r.value.state), HiltDir(env, r.value.state)) == Ok(r.value.path)
  {
    var st := if stateOverride.Some? then Ok(stateOverride.value) else HiltState(YearDoyKey(d));
    match st
    case Err(e) => Err(e)
    case Ok(s) =>
      match LocateFile(env, HiltPattern(d), true, HiltUrl(s), HiltDir(env, s))
      case Err(e) => Err(e)
      case Ok(p) => Ok(Opened(s, p))
  }

  /** The local search keeps exactly the entries named `hhrr<YEARDOY>...`. */
  lemma HiltPatternPrefix(d: Date, p: LocalPath)
    requires ValidDate(d)
    ensures GlobMatch(HiltPattern(d), p.name) <==> IsPrefix("hhrr" + YearDoy(d), p.name)
  {
    KeyPattern("hhrr", YearDoy(d), p);
  }

  /** From year 1000 on, the pattern is the one `date2yeardoy`'s string gives. */
  lemma HiltPatternAsWritten(d: Date)
    requires ValidDate(d) && d.year >= 1000
    ensures HiltPattern(d) == "hhrr" + Date2YearDoy(d) + "*"
  {
    Date2YearDoyAgrees(d);
  }

  /** The state-1 renaming of `load`. */
  const RateNames: map<string, string> :=
    map["Rate1" := "SSD1", "Rate2" := "SSD2", "Rate3" := "SSD3", "Rate4" := "SSD4", "Rate5" := "PCRE", "Rate6" := "IK"]

  /** The five columns that `reshape_20ms_state` spreads: Rate1..Rate4, then Rate6 (Rate5 is
      skipped, being 100 ms data). */
  const ReshapeSources: seq<string> := ["Rate1", "Rate2", "Rate3", "Rate4", "Rate6"]

  /** Sample `j` of the 20 ms counts: row `j / 5`, channel `j % 5`. */
  function Interleave(src: seq<seq<int>>, n: nat): (r: seq<int>)
    requires |src| == 5 && forall i :: 0 <= i < 5 ==> |src[i]| == n
    ensures |r| == 5 * n
  {
    seq(5 * n, j requires 0 <= j < 5 * n => src[j % 5][j / 5])
  }

  /** Time of sample `j`: the row's time plus 20 ms per step within the row. */
  function SubSamples(index: seq<int>): (r: seq<int>)
    ensures |r| == 5 * |index|
  {
    seq(5 * |index|, j requires 0 <= j < 5 * |index| => index[j / 5] + 20 * (j % 5))
  }

  lemma DivMod5(k: int, i: int)
    requires k >= 0 && 0 <= i < 5
    ensures (5 * k + i) / 5 == k && (5 * k + i) % 5 == i
  {
  }

  /** The values of the columns named in `names` (the first column of each name); a missing
      one raises KeyError. */
  function Gather(cols: seq<Column>, names: seq<string>): (r: Result<seq<seq<int>>>)
    ensures r.Ok? ==> |r.value| == |names|
    ensures r.Ok? ==> forall i :: 0 <= i < |names| ==> FindExact(cols, names[i]).Some? && r.value[i] == cols[FindExact(cols, names[i]).value].values
    ensures r.Err? <==> exists i :: 0 <= i < |names| && FindExact(cols, names[i]).None?
    ensures r.Err? ==> r.error.MissingColumn?
    decreases |names|
  {
    if names == [] then Ok([])
    else match FindExact(cols, names[0])
      case None => Err(MissingColumn(names[0]))
      case Some(k) =>
        match Gather(cols, names[1..])
        case Err(e) => Err(e)
        case Ok(rest) => Ok([cols[k].values] + rest)
  }

  /** `reshape_20ms_state` as a function: 5N rows of 20 ms counts from N rows of the table. */
  function Reshape20ms(f: Frame): (r: Result<Frame>)
    requires WellShaped(f)
    ensures r.Err? <==> exists i :: 0 <= i < 5 && FindExact(f.columns, ReshapeSources[i]).None?
    ensures r.Ok? ==> |r.value.index| == 5 * |f.index| && |r.value.columns| == 1 && r.value.columns[0].name == "counts"
    ensures r.Ok? ==> |r.value.columns[0].values| == 5 * |f.index|
  {
    match Gather(f.columns, ReshapeSources)
    case Err(e) => Err(e)
    case Ok(src) =>
      assert forall i :: 0 <= i < 5 ==> |src[i]| == |f.index|;
      Ok(Frame(SubSamples(f.index), [Column("counts", Interleave(src, |f.index|))]))
  }

  /** Row `k` of the table becomes samples `5k .. 5k+4`: Rate1..Rate4 then Rate6, 20 ms apart. */
  lemma ReshapeAt(f: Frame, k: nat, i: nat)
    requires WellShaped(f) && Reshape20ms(f).Ok? && k < |f.index| && i < 5
    ensures FindExact(f.columns, ReshapeSources[i]).Some?
    ensures Reshape20ms(f).value.columns[0].values[5 * k + i] == f.columns[FindExact(f.columns, ReshapeSources[i]).value].values[k]
    ensures Reshape20ms(f).value.index[5 * k + i] == f.index[k] + 20 * i
  {
    var src := Gather(f.columns, ReshapeSources).value;
    ReshapeValue(f, src);
    InterleaveAt(src, |f.index|, k, i);
    SubSamplesAt(f.index, k, i);
  }

  /** The reshaped table, given the gathered channels. */
  lemma ReshapeValue(f: Frame, src: seq<seq<int>>)
    requires WellShaped(f) && Gather(f.columns, ReshapeSources) == Ok(src)
    ensures |src| == 5 && forall i :: 0 <= i < 5 ==> |src[i]| == |f.index|
    ensures Reshape20ms(f) == Ok(Frame(SubSamples(f.index), [Column("counts", Interleave(src, |f.index|))]))
  {
  }

  lemma InterleaveAt(src: seq<seq<int>>, n: nat, k: nat, i: nat)
    requires |src| == 5 && (forall i' :: 0 <= i' < 5 ==> |src[i']| == n) && k < n && i < 5
    ensures 5 * k + i < 5 * n && Interleave(src, n)[5 * k + i] == src[i][k]
  {
    DivMod5(k, i);
  }

  lemma SubSamplesAt(index: seq<int>, k: nat, i: nat)
    requires k < |index| && i < 5
    ensures 5 * k + i < 5 * |index| && SubSamples(index)[5 * k + i] == index[k] + 20 * i
  {
    DivMod5(k, i);
  }

  /** `load` after the file is read: parse the time, then dispatch on the state. */
  function HiltLoad(raw: Frame, state: int, midnight: int): (r: Result<Frame>)
    requires WellShaped(raw)
    ensures ParseTime(raw, midnight, true).Err? ==> r == Err(MissingColumn("Time"))
    ensures ParseTime(raw, midnight, true).Ok? && state == 1 ==>
      r == Ok(Frame(ParseTime(raw, midnight, true).value.frame.index, Rename(Drop(raw.columns, {"Time"}), RateNames)))
    ensures ParseTime(raw, midnight, true).Ok? && (state == 2 || state == 4) ==> r == Reshape20ms(ParseTime(raw, midnight, true).value.frame)
    ensures ParseTime(raw, midnight, true).Ok? && state !in {1, 2, 4} ==> r == Err(NotImplementedError)
  {
    var parsed := ParseTime(raw, midnight, true);
    if parsed.Err? then Err(parsed.error) else Dispatch(parsed.value.frame, state)
  }

  /** The state branch of `load`, on the parsed table. */
  function Dispatch(f: Frame, state: int): Result<Frame>
    requires WellShaped(f)
  {
    if state == 1 then Ok(Frame(f.index, Rename(f.columns, RateNames)))
    else if state == 4 || state == 2 then Reshape20ms(f)
    else Err(NotImplementedError)
  }

  /** State 1 keeps the row count and renames nothing but the rate columns. */
  lemma State1Rows(raw: Frame, midnight: int)
    requires WellShaped(raw) && HiltLoad(raw, 1, midnight).Ok?
    ensures |HiltLoad(raw, 1, midnight).value.index| == |raw.index|
    ensures |HiltLoad(raw, 1, midnight).value.columns| == |Drop(raw.columns, {"Time"})|
  {
    ParseTimeKeepsRows(raw, midnight, true);
  }

  /** After a state-1 load, `h['SSD1']` is the first Rate1 column, provided the file had no
      column already called SSD1. */
  lemma RenamedChannel(cols: seq<Column>)
    requires forall j :: 0 <= j < |cols| ==> cols[j].name != "SSD1"
    ensures FindExact(Rename(cols, RateNames), "SSD1").Some? <==> FindExact(cols, "Rate1").Some?
    ensures FindExact(cols, "Rate1").Some? ==> FindExact(Rename(cols, RateNames), "SSD1") == FindExact(cols, "Rate1")
  {
    forall j | 0 <= j < |cols|
      ensures (if cols[j].name in RateNames then RateNames[cols[j].name] else cols[j].name) == "SSD1" <==> cols[j].name == "Rate1"
    {
      RateNamesSSD1(cols[j].name);
    }
    FindAfterRename(cols, RateNames, "Rate1", "SSD1");
  }

  /** Only Rate1 is renamed to SSD1. */
  lemma RateNamesSSD1(n: string)
    requires n != "SSD1"
    ensures (if n in RateNames then RateNames[n] else n) == "SSD1" <==> n == "Rate1"
  {
  }

  /** After a state-4 load the only column is "counts": `h['SSD1']` raises KeyError. */
  lemma State4HasNoSSD1(raw: Frame, midnight: int)
    requires WellShaped(raw) && HiltLoad(raw, 4, midnight).Ok?
    ensures HiltGet(HiltLoad(raw, 4, midnight).value, StrKey("SSD1")) == Err(KeyError(["counts"]))
  {
    SSD1NotTime();
    var f := HiltLoad(raw, 4, midnight).value;
    assert Names(f.columns) == ["counts"];
  }

  lemma SSD1NotTime()
    ensures !IsTimeKey("SSD1")
  {
    var l := Lower("SSD1");
    assert l == "ssd1";
    ContainsIff(l, "time");
    assert !IsPrefix("time", l[0..]) by {
      assert l[0..][..4][0] == 's';
    }
  }

  /** `sampex.HILT`. */
  class Hilt {
    const loadDate: Date
    const state: int
    const filePath: LocalPath
    /** `_hilt_csv`: the table as read, then with its time parsed. */
    var csv: Frame
    /** `data`: None until `load` succeeds. */
    var data: Option<Frame>
    /** Whether `parse_time` warned that the time column is out of order. */
    var warned: bool
    var counts: array<int>
    var times: array<int>

    constructor(loadDate: Date, state: int, filePath: LocalPath)
      ensures this.loadDate == loadDate && this.state == state && this.filePath == filePath
      ensures data.None? && !warned
    {
      this.loadDate := loadDate;
      this.state := state;
      this.filePath := filePath;
      csv := Frame([], []);
      data := None;
      warned := false;
      counts := new int[0];
      times := new int[0];
    }

    /** `HILT(load_date, state=...)`. */
    static method Open(d: Date, stateOverride: Option<int>, env: Env) returns (r: Result<Hilt>)
      requires ValidDate(d)
      ensures r.Ok? <==> HiltOpen(d, stateOverride, env).Ok?
      ensures r.Err? ==> r.error == HiltOpen(d, stateOverride, env).error
      ensures r.Ok? ==> fresh(r.value) && r.value.loadDate == d && r.value.data.None?
      ensures r.Ok? ==> r.value.state == HiltOpen(d, stateOverride, env).value.state
      ensures r.Ok? ==> r.value.filePath == HiltOpen(d, stateOverride, env).value.path
    {
      var state: int;
      if stateOverride.Some? {
        state := stateOverride.value;
      } else {
        var s := HiltState(YearDoyKey(d));
        if s.Err? {
          return Err(s.error);
        }
        state := s.value;
      }
      var path := FindFile(env, HiltPattern(d), true, HiltUrl(state), HiltDir(env, state));
      if path.Err? {
        return Err(path.error);
      }
      var h := new Hilt(d, state, path.value);
      return Ok(h);
    }

    /** `load()`: read the file, parse its time column and reshape it for the state. The
        archive branch tests the suffix against "zip", which a suffix never equals (see
        `SuffixNeverZip`), so the file is always read as text. */
    method Load(read: LocalPath -> Frame) returns (r: Result<Frame>)
      requires ValidDate(loadDate) && WellShaped(read(filePath))
      modifies this
      ensures r == HiltLoad(read(filePath), state, MidnightMs(loadDate))
      ensures data == if r.Ok? then Some(r.value) else old(data)
      ensures ParseTime(read(filePath), MidnightMs(loadDate), true).Ok? ==>
        warned == ParseTime(read(filePath), MidnightMs(loadDate), true).value.warned
      ensures ParseTime(read(filePath), MidnightMs(loadDate), true).Err? ==> warned == old(warned)
      ensures r.Ok? && (state == 2 || state == 4) ==> counts[..] == r.value.columns[0].values && times[..] == r.value.index
      ensures !(r.Ok? && (state == 2 || state == 4)) ==> counts == old(counts) && times == old(times)
      ensures csv == match ParseTime(read(filePath), MidnightMs(loadDate), true)
        case Ok(p) => p.frame
        case Err(_) => read(filePath)
    {
      SuffixNeverZip(filePath.name);
      if Suffix(filePath.name) == "zip" {
        assert false;
      }
      csv := read(filePath);
      var parsed := ParseTime(csv, MidnightMs(loadDate), true);
      if parsed.Err? {
        return Err(parsed.error);
      }
      warned := parsed.value.warned;
      csv := parsed.value.frame;
      r := DispatchState();
    }

    /** The state branch of `load`: rename the state-1 channels, reshape states 2 and 4,
        refuse state 3. */
    method DispatchState() returns (r: Result<Frame>)
      requires WellShaped(csv)
      modifies this
      ensures csv == old(csv) && warned == old(warned)
      ensures r == Dispatch(csv, state)
      ensures data == if r.Ok? then Some(r.value) else old(data)
      ensures r.Ok? && (state == 2 || state == 4) ==> counts[..] == r.value.columns[0].values && times[..] == r.value.index
      ensures !(r.Ok? && (state == 2 || state == 4)) ==> counts == old(counts) && times == old(times)
    {
      if state == 1 {
        r := Ok(Frame(csv.index, Rename(csv.columns, RateNames)));
        data := Some(r.value);
      } else if state == 4 || state == 2 {
        r := Reshape20msState();
        if r.Ok? {
          data := Some(r.value);
        }
      } else {
        r := Err(NotImplementedError);
      }
    }

    /** `reshape_20ms_state()`: `counts[i::5]` takes Rate1..Rate4 and then Rate6, `times[i::5]`
        the index shifted by `20 ms * i`. */
    method Reshape20msState() returns (r: Result<Frame>)
      requires WellShaped(csv)
      modifies this
      ensures csv == old(csv) && data == old(data) && warned == old(warned)
      ensures r == Reshape20ms(csv)
      ensures r.Ok? ==> fresh(counts) && fresh(times)
      ensures r.Ok? ==> counts[..] == r.value.columns[0].values && times[..] == r.value.index
      ensures r.Err? ==> counts == old(counts) && times == old(times)
    {
      var g := Gather(csv.columns, ReshapeSources);
      if g.Err? {
        return Err(g.error);
      }
      var src := g.value;
      var n := |csv.index|;
      ReshapeValue(csv, src);
      var c := StridedCounts(src, n);
      var t := StridedTimes(csv.index);
      var res := Frame(t[..], [Column("counts", c[..])]);
      assert Ok(res) == Reshape20ms(csv);
      counts := c;
      times := t;
      return Ok(res);
    }

    /** `h[key]`: a non-string key is refused before `data` is read; a string key before a
        successful `load` finds no `data` attribute. */
    function Get(k: Key): (r: Result<Selection>)
      reads this
      ensures k.OtherKey? ==> r == Err(KeyError([]))
      ensures k.StrKey? && data.None? ==> r == Err(AttributeError)
      ensures data.Some? ==> r == HiltGet(data.value, k)
    {
      if k.OtherKey? then Err(KeyError([]))
      else if data.None? then Err(AttributeError)
      else HiltGet(data.value, k)
    }
  }

  /** The counts loop of `reshape_20ms_state`: channels 0..3, then Rate6 into channel 4. */
  method StridedCounts(src: seq<seq<int>>, n: nat) returns (c: array<int>)
    requires |src| == 5 && forall i :: 0 <= i < 5 ==> |src[i]| == n
    ensures fresh(c) && c[..] == Interleave(src, n)
  {
    c := new int[5 * n];
    for i := 0 to 4
      invariant forall j :: 0 <= j < c.Length && j % 5 < i ==> c[j] == src[j % 5][j / 5]
    {
      FillStrided(c, i, src[i]);
    }
    FillStrided(c, 4, src[4]);
    assert c[..] == Interleave(src, n);
  }

  /** The times loop of `reshape_20ms_state`: slot `i` of each row is 20 ms * i later. */
  method StridedTimes(index: seq<int>) returns (t: array<int>)
    ensures fresh(t) && t[..] == SubSamples(index)
  {
    t := new int[5 * |index|];
    for i := 0 to 5
      invariant forall j :: 0 <= j < t.Length && j % 5 < i ==> t[j] == index[j / 5] + 20 * (j % 5)
    {
      FillStrided(t, i, Shift(index, 20 * i));
    }
    assert t[..] == SubSamples(index);
  }

  /** `a[i::5] = values`: every fifth slot from `i` takes the next value, the others keep
      theirs. */
  method FillStrided(a: array<int>, i: nat, values: seq<int>)
    requires i < 5 && a.Length == 5 * |values|
    modifies a
    ensures forall j :: 0 <= j < a.Length && j % 5 == i ==> a[j] == values[j / 5]
    ensures forall j :: 0 <= j < a.Length && j % 5 != i ==> a[j] == old(a[j])
  {
    for k := 0 to |values|
      invariant forall j :: 0 <= j < a.Length && j % 5 == i && j / 5 < k ==> a[j] == values[j / 5]
      invariant forall j :: 0 <= j < a.Length && (j % 5 != i || j / 5 >= k) ==> a[j] == old(a[j])
    {
      DivMod5(k, i);
      a[5 * k + i] := values[k];
    }
  }
}
