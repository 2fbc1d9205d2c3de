/** The part of a pandas DataFrame the loaders use: an index of timestamps and named integer
    columns, the seconds-of-day time parse (`parse_time`) and the `__getitem__` lookups. */
module Tables {
  import opened Errors
  import opened Text

  /** A named column of integer samples. */
  datatype Column = Column(name: string, values: seq<int>)

  /** A table: its index (row labels, timestamps in milliseconds once parsed) and its columns
      in file order. */
  datatype Frame = Frame(index: seq<int>, columns: seq<Column>)

  /** Every column has one value per index entry. */
  predicate WellShaped(f: Frame) {
    forall i :: 0 <= i < |f.columns| ==> |f.columns[i].values| == |f.index|
  }

  /** `df.columns.to_numpy()`: the column names in order. */
  function Names(cols: seq<Column>): (r: seq<string>)
    ensures |r| == |cols|
    ensures forall i :: 0 <= i < |cols| ==> r[i] == cols[i].name
  {
    seq(|cols|, i requires 0 <= i < |cols| => cols[i].name)
  }

  /** The position of the first column called `name`. */
  function FindExact(cols: seq<Column>, name: string): (r: Option<nat>)
    ensures r.Some? ==> r.value < |cols| && cols[r.value].name == name
    ensures r.Some? ==> forall j :: 0 <= j < r.value ==> cols[j].name != name
    ensures r.None? <==> forall j :: 0 <= j < |cols| ==> cols[j].name != name
    decreases |cols|
  {
    if cols == [] then None
    else if cols[0].name == name then Some(0)
    else match FindExact(cols[1..], name)
      case None => None
      case Some(k) => Some(k + 1)
  }

  /** The position of the first column whose lower-cased name contains the lower-cased key
      (the `for column in self.data.columns` loop of the LICA and attitude accessors). */
  function FindSubstring(cols: seq<Column>, key: string): (r: Option<nat>)
    ensures r.Some? ==> r.value < |cols| && Contains(Lower(cols[r.value].name), Lower(key))
    ensures r.Some? ==> forall j :: 0 <= j < r.value ==> !Contains(Lower(cols[j].name), Lower(key))
    ensures r.None? <==> forall j :: 0 <= j < |cols| ==> !Contains(Lower(cols[j].name), Lower(key))
    decreases |cols|
  {
    if cols == [] then None
    else if Contains(Lower(cols[0].name), Lower(key)) then Some(0)
    else match FindSubstring(cols[1..], key)
      case None => None
      case Some(k) => Some(k + 1)
  }

  /** `df.rename(columns=m)`: each name found in `m` is replaced, the others are kept. */
  function Rename(cols: seq<Column>, m: map<string, string>): (r: seq<Column>)
    ensures |r| == |cols|
    ensures forall i :: 0 <= i < |cols| ==> r[i].values == cols[i].values
    ensures forall i :: 0 <= i < |cols| ==> r[i].name == (if cols[i].name in m then m[cols[i].name] else cols[i].name)
  {
    seq(|cols|, i requires 0 <= i < |cols| =>
      Column(if cols[i].name in m then m[cols[i].name] else cols[i].name, cols[i].values))
  }

  /** When the columns that the rename calls `b` are exactly those that were called `a`, a
      lookup of `b` after the rename finds the column a lookup of `a` found before. */
  lemma FindAfterRename(cols: seq<Column>, m: map<string, string>, a: string, b: string)
    requires forall j :: 0 <= j < |cols| ==>
      ((if cols[j].name in m then m[cols[j].name] else cols[j].name) == b <==> cols[j].name == a)
    ensures FindExact(Rename(cols, m), b) == FindExact(cols, a)
  {
    var r := Rename(cols, m);
    assert forall j :: 0 <= j < |cols| ==> (r[j].name == b <==> cols[j].name == a);
    FindSameMatches(cols, a, r, b);
  }

  /** Two column lists whose columns named `b` sit exactly where the other's named `a` do
      give the same lookup. */
  lemma FindSameMatches(xs: seq<Column>, a: string, ys: seq<Column>, b: string)
    requires |xs| == |ys|
    requires forall j :: 0 <= j < |xs| ==> (ys[j].name == b <==> xs[j].name == a)
    ensures FindExact(ys, b) == FindExact(xs, a)
  {
    match FindExact(xs, a)
    case None =>
      assert forall j :: 0 <= j < |ys| ==> ys[j].name != b;
    case Some(k) =>
      assert ys[k].name == b;
      var k' := FindExact(ys, b).value;
      assert xs[k'].name == a;
  }

  /** `del df[name]` / `df.drop(names, axis=1)`: the columns with those names are removed and
      the others keep their order. */
  function Drop(cols: seq<Column>, names: set<string>): (r: seq<Column>)
    ensures |r| <= |cols|
    decreases |cols|
  {
    if cols == [] then []
    else if cols[0].name in names then Drop(cols[1..], names)
    else [cols[0]] + Drop(cols[1..], names)
  }

  /** A column survives the drop exactly when its name is not among the dropped ones. */
  lemma {:induction false} DropMembers(cols: seq<Column>, names: set<string>)
    ensures forall c :: c in Drop(cols, names) <==> c in cols && c.name !in names
    decreases |cols|
  {
    if cols != [] {
      DropMembers(cols[1..], names);
      assert cols == [cols[0]] + cols[1..];
    }
  }

  /** Dropping keeps the columns that remain well shaped. */
  lemma DropShape(f: Frame, names: set<string>, index: seq<int>)
    requires WellShaped(f) && |index| == |f.index|
    ensures WellShaped(Frame(index, Drop(f.columns, names)))
  {
    var r := Drop(f.columns, names);
    DropMembers(f.columns, names);
    forall i | 0 <= i < |r| ensures |r[i].values| == |index| {
      assert r[i] in r;
    }
  }

  /** `np.any(t[1:] < t[:-1])`, evaluated pair by pair from the left. */
  predicate OutOfOrder(t: seq<int>)
    decreases |t|
  {
    |t| >= 2 && (t[1] < t[0] || OutOfOrder(t[1..]))
  }

  /** The warning fires exactly when some adjacent pair decreases. */
  lemma {:induction false} OutOfOrderIff(t: seq<int>)
    ensures OutOfOrder(t) <==> exists i :: 0 <= i < |t| - 1 && t[i + 1] < t[i]
    decreases |t|
  {
    if |t| >= 2 {
      OutOfOrderIff(t[1..]);
      if OutOfOrder(t[1..]) {
        var i :| 0 <= i < |t[1..]| - 1 && t[1..][i + 1] < t[1..][i];
        assert t[i + 2] < t[i + 1];
      } else if t[1] >= t[0] {
        forall i | 0 <= i < |t| - 1 ensures t[i + 1] >= t[i] {
          if i > 0 {
            assert t[1..][i] == t[i + 1] && t[1..][i - 1] == t[i];
          }
        }
      }
    }
  }

  /** A sequence without the warning is sorted. */
  lemma InOrderSorted(t: seq<int>)
    requires !OutOfOrder(t)
    ensures forall i, j :: 0 <= i <= j < |t| ==> t[i] <= t[j]
  {
    OutOfOrderIff(t);
    forall i, j | 0 <= i <= j < |t| ensures t[i] <= t[j] {
      AdjacentToAll(t, i, j);
    }
  }

  lemma {:induction false} AdjacentToAll(t: seq<int>, i: int, j: int)
    requires forall k :: 0 <= k < |t| - 1 ==> t[k] <= t[k + 1]
    requires 0 <= i <= j < |t|
    ensures t[i] <= t[j]
    decreases j - i
  {
    if i < j {
      AdjacentToAll(t, i + 1, j);
    }
  }

  /** `pd.Timestamp(day) + pd.to_timedelta(t, unit="s")` for each sample, with the samples
      already in milliseconds of the day. */
  function Shift(t: seq<int>, midnight: int): (r: seq<int>)
    ensures |r| == |t|
    ensures forall i :: 0 <= i < |t| ==> r[i] - midnight == t[i]
  {
    seq(|t|, i requires 0 <= i < |t| => midnight + t[i])
  }

  /** Shifting by the day's midnight keeps the order of every pair, so it neither hides nor
      creates the out-of-order warning. */
  lemma {:induction false} ShiftKeepsOrder(t: seq<int>, midnight: int)
    ensures forall i, j :: 0 <= i < |t| && 0 <= j < |t| ==> (Shift(t, midnight)[i] < Shift(t, midnight)[j] <==> t[i] < t[j])
    ensures OutOfOrder(Shift(t, midnight)) <==> OutOfOrder(t)
  {
    var r := Shift(t, midnight);
    OutOfOrderIff(t);
    OutOfOrderIff(r);
    if OutOfOrder(t) {
      var i :| 0 <= i < |t| - 1 && t[i + 1] < t[i];
      assert r[i + 1] < r[i];
    }
    if OutOfOrder(r) {
      var i :| 0 <= i < |r| - 1 && r[i + 1] < r[i];
      assert t[i + 1] < t[i];
    }
  }

  /** The outcome of `parse_time`: the new table and whether the out-of-order warning fired. */
  datatype Parsed = Parsed(frame: Frame, warned: bool)

  /** `parse_time`: warn when the "Time" column decreases somewhere, replace it by midnight plus
      the sample's time of day and, when `timeIndex` holds, move it into the index and delete
      the column. A table without a "Time" column raises KeyError. */
  function ParseTime(f: Frame, midnight: int, timeIndex: bool): (r: Result<Parsed>)
    requires WellShaped(f)
    ensures r.Err? <==> FindExact(f.columns, "Time").None?
    ensures r.Err? ==> r.error == MissingColumn("Time")
    ensures r.Ok? ==> WellShaped(r.value.frame)
    ensures r.Ok? ==> (r.value.warned <==> exists i :: 0 <= i < |TimeOf(f)| - 1 && TimeOf(f)[i + 1] < TimeOf(f)[i])
    ensures r.Ok? && timeIndex ==> r.value.frame.index == Shift(TimeOf(f), midnight)
    ensures r.Ok? && timeIndex ==> r.value.frame.columns == Drop(f.columns, {"Time"})
    ensures r.Ok? && !timeIndex ==> r.value.frame.index == f.index
    ensures r.Ok? && !timeIndex ==> |r.value.frame.columns| == |f.columns|
    ensures r.Ok? && !timeIndex ==> forall i :: 0 <= i < |f.columns| ==>
      r.value.frame.columns[i] == (if f.columns[i].name == "Time" then Column("Time", Shift(TimeOf(f), midnight)) else f.columns[i])
  {
    match FindExact(f.columns, "Time")
    case None => Err(MissingColumn("Time"))
    case Some(k) =>
      var t := f.columns[k].values;
      assert TimeOf(f) == t;
      OutOfOrderIff(t);
      var stamps := Shift(t, midnight);
      if timeIndex then
        DropShape(f, {"Time"}, stamps);
        Ok(Parsed(Frame(stamps, Drop(f.columns, {"Time"})), OutOfOrder(t)))
      else
        Ok(Parsed(Frame(f.index, SetColumn(f.columns, "Time", stamps)), OutOfOrder(t)))
  }

  /** The samples of the first "Time" column (empty when there is none). */
  function TimeOf(f: Frame): seq<int> {
    match FindExact(f.columns, "Time")
    case None => []
    case Some(k) => f.columns[k].values
  }

  /** `df[name] = values` for a name already present: every column of that name takes the
      new values. */
  function SetColumn(cols: seq<Column>, name: string, values: seq<int>): seq<Column> {
    seq(|cols|, i requires 0 <= i < |cols| => if cols[i].name == name then Column(name, values) else cols[i])
  }

  /** Parsing keeps the number of rows and the order of the timestamps. */
  lemma ParseTimeKeepsRows(f: Frame, midnight: int, timeIndex: bool)
    requires WellShaped(f) && FindExact(f.columns, "Time").Some?
    ensures ParseTime(f, midnight, timeIndex).Ok?
    ensures |ParseTime(f, midnight, timeIndex).value.frame.index| == |f.index|
    ensures ParseTime(f, midnight, timeIndex).value.warned ==> OutOfOrder(Shift(TimeOf(f), midnight))
    ensures !ParseTime(f, midnight, timeIndex).value.warned ==>
      forall i, j :: 0 <= i <= j < |f.index| ==> Shift(TimeOf(f), midnight)[i] <= Shift(TimeOf(f), midnight)[j]
  {
    var t := TimeOf(f);
    OutOfOrderIff(t);
    ShiftKeepsOrder(t, midnight);
    if !OutOfOrder(t) {
      InOrderSorted(Shift(t, midnight));
    }
  }

  /** The key of `obj[key]`: a Python string or any other object. */
  datatype Key = StrKey(s: string) | OtherKey

  /** What an accessor returns: the table's index or the values of one column. */
  datatype Selection = IndexOf(times: seq<int>) | ValuesOf(values: seq<int>)

  predicate IsTimeKey(s: string) { Contains(Lower(s), "time") }

  /** HILT's `__getitem__`: a key mentioning "time" gives the index, any other string must be
      an exact column name; a miss lists the columns, a non-string key does not. */
  function HiltGet(f: Frame, k: Key): (r: Result<Selection>)
    ensures k.OtherKey? ==> r == Err(KeyError([]))
    ensures k.StrKey? && IsTimeKey(k.s) ==> r == Ok(IndexOf(f.index))
    ensures k.StrKey? && !IsTimeKey(k.s) ==>
      (r.Ok? <==> exists j :: 0 <= j < |f.columns| && f.columns[j].name == k.s)
    ensures k.StrKey? && !IsTimeKey(k.s) && r.Ok? ==>
      exists j :: 0 <= j < |f.columns| && f.columns[j].name == k.s && r.value == ValuesOf(f.columns[j].values)
    ensures k.StrKey? && r.Err? ==> r.error == KeyError(Names(f.columns))
  {
    match k
    case OtherKey => Err(KeyError([]))
    case StrKey(s) =>
      if IsTimeKey(s) then Ok(IndexOf(f.index))
      else match FindExact(f.columns, s)
        case Some(j) => Ok(ValuesOf(f.columns[j].values))
        case None => Err(KeyError(Names(f.columns)))
  }

  /** PET's `__getitem__`: "time" gives the index, any key mentioning "count" gives the
      "counts" column, every other string is refused with the column list. */
  function PetGet(f: Frame, k: Key): (r: Result<Selection>)
    ensures k.OtherKey? ==> r == Err(KeyError([]))
    ensures k.StrKey? && IsTimeKey(k.s) ==> r == Ok(IndexOf(f.index))
    ensures k.StrKey? && !IsTimeKey(k.s) && !Contains(Lower(k.s), "count") ==> r == Err(KeyError(Names(f.columns)))
    ensures k.StrKey? && !IsTimeKey(k.s) && Contains(Lower(k.s), "count") ==>
      r == (match FindExact(f.columns, "counts")
            case Some(j) => Ok(ValuesOf(f.columns[j].values))
            case None => Err(MissingColumn("counts")))
  {
    match k
    case OtherKey => Err(KeyError([]))
    case StrKey(s) =>
      if IsTimeKey(s) then Ok(IndexOf(f.index))
      else if Contains(Lower(s), "count") then
        match FindExact(f.columns, "counts")
        case Some(j) => Ok(ValuesOf(f.columns[j].values))
        case None => Err(MissingColumn("counts"))
      else Err(KeyError(Names(f.columns)))
  }

  /** LICA's and the attitude reader's `__getitem__`: "time" gives the index, any other string
      selects the first column whose name contains it ignoring case; both errors list the
      columns. */
  function SubstringGet(f: Frame, k: Key): (r: Result<Selection>)
    ensures k.OtherKey? ==> r == Err(KeyError(Names(f.columns)))
    ensures k.StrKey? && IsTimeKey(k.s) ==> r == Ok(IndexOf(f.index))
    ensures k.StrKey? && !IsTimeKey(k.s) ==>
      (r.Ok? <==> exists j :: 0 <= j < |f.columns| && Contains(Lower(f.columns[j].name), Lower(k.s)))
    ensures k.StrKey? && !IsTimeKey(k.s) && r.Ok? ==>
      exists j :: 0 <= j < |f.columns| && r.value == ValuesOf(f.columns[j].values) &&
        Contains(Lower(f.columns[j].name), Lower(k.s)) &&
        forall i :: 0 <= i < j ==> !Contains(Lower(f.columns[i].name), Lower(k.s))
    ensures r.Err? ==> r.error == KeyError(Names(f.columns))
  {
    match k
    case OtherKey => Err(KeyError(Names(f.columns)))
    case StrKey(s) =>
      if IsTimeKey(s) then Ok(IndexOf(f.index))
      else match FindSubstring(f.columns, s)
        case Some(j) => Ok(ValuesOf(f.columns[j].values))
        case None => Err(KeyError(Names(f.columns)))
  }

  /** The exact-name rule is stricter than the substring rule: whatever HILT's accessor
      finds by name, the substring accessor finds too (possibly an earlier column). */
  lemma ExactImpliesSubstring(f: Frame, s: string)
    requires !IsTimeKey(s) && HiltGet(f, StrKey(s)).Ok?
    ensures SubstringGet(f, StrKey(s)).Ok?
  {
    var j :| 0 <= j < |f.columns| && f.columns[j].name == s;
    ContainsSelf(Lower(s));
  }

  lemma ContainsSelf(s: string)
    ensures Contains(s, s)
  {
    assert s[..|s|] == s;
  }

  /** With the empty key every column matches, so the first column is returned. */
  lemma EmptyKeyFirstColumn(f: Frame)
    requires |f.columns| > 0
    ensures SubstringGet(f, StrKey("")) == Ok(ValuesOf(f.columns[0].values))
  {
    assert Lower("") == "";
    ContainsEmpty(Lower(f.columns[0].name));
    EmptyNotTime();
  }

  lemma EmptyNotTime()
    ensures !IsTimeKey("")
  {
    assert Lower("") == "";
  }
}
