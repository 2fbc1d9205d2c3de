/** The archive client of sampex/download.py: a `Downloader` holds a URL and an optional
    download directory, lists the hyperlinks of the page at its URL and saves the file at its
    URL. The network is a map from URL to the response the server gives. */
module Download {
  import opened Errors
  import opened Text
  import opened Paths

  /** What `requests.get(url)` yields: the status code, the `href` of every `<a>` element of
      the page in document order, the Content-Length header read as an integer (RFC 9110
      section 8.6 makes it a string of digits) and the lengths of the body's chunks. */
  datatype Response = Response(status: int, hrefs: seq<string>, contentLength: Option<nat>, chunks: seq<nat>)

  /** The servers: a URL that is not a key cannot be reached at all. */
  type Web = map<string, Response>

  /** The gate of `ls`: `status_code // 100 in [4, 5]`. */
  predicate StatusRejected(status: int) { status / 100 == 4 || status / 100 == 5 }

  lemma StatusRejectedRange(status: int)
    ensures StatusRejected(status) <==> 400 <= status <= 599
  {
  }

  // ---------------------------------------------------------------------------------------
  // The pattern of `ls`: `match.replace('*', '.*')`, compiled by `re` and searched in each href.

  /** `match.replace('*', '.*')`. */
  function Translate(p: string): (r: string)
    ensures r == [] || r[0] != '*'
    decreases |p|
  {
    if p == [] then []
    else (if p[0] == '*' then ".*" else [p[0]]) + Translate(p[1..])
  }

  /** A regular-expression atom: one literal character or `.` (any character but a newline). */
  datatype Atom = Lit(c: char) | AnyChar

  /** An atom, repeated any number of times when followed by `*`. */
  datatype Piece = Piece(atom: Atom, star: bool)

  /** `re.compile` for expressions made of literals, `.` and postfix `*`. A `*` with nothing
      before it, or right after another repeat, is refused as `re` refuses it. */
  function Compile(t: string): (r: Result<seq<Piece>>)
    ensures r.Err? ==> r.error == PatternError
    decreases |t|
  {
    if t == [] then Ok([])
    else if t[0] == '*' then Err(PatternError)
    else
      var a := if t[0] == '.' then AnyChar else Lit(t[0]);
      if |t| >= 2 && t[1] == '*' then
        match Compile(t[2..])
        case Ok(ps) => Ok([Piece(a, true)] + ps)
        case Err(e) => Err(e)
      else
        match Compile(t[1..])
        case Ok(ps) => Ok([Piece(a, false)] + ps)
        case Err(e) => Err(e)
  }

  /** The pieces the source's patterns stand for, read straight from the glob-like pattern:
      `*` is any run, `.` any one character, everything else itself. */
  function PatternPieces(p: string): (r: seq<Piece>)
    ensures |r| == |p|
    decreases |p|
  {
    if p == [] then []
    else
      [if p[0] == '*' then Piece(AnyChar, true)
       else if p[0] == '.' then Piece(AnyChar, false)
       else Piece(Lit(p[0]), false)] + PatternPieces(p[1..])
  }

  /** The translated pattern always compiles, to exactly the pieces of the pattern. */
  lemma {:induction false} TranslateCompiles(p: string)
    ensures Compile(Translate(p)) == Ok(PatternPieces(p))
    decreases |p|
  {
    if p != [] {
      TranslateCompiles(p[1..]);
      var rest := Translate(p[1..]);
      if p[0] == '*' {
        assert Translate(p) == ".*" + rest;
        assert (".*" + rest)[2..] == rest;
      } else {
        assert Translate(p) == [p[0]] + rest;
        assert ([p[0]] + rest)[1..] == rest;
      }
    }
  }

  predicate AtomMatches(a: Atom, c: char) {
    match a
    case Lit(x) => c == x
    case AnyChar => c != '\n'
  }

  /** The pieces match some prefix of `s` (`re.match`, which needs no anchor at the end). */
  predicate MatchHere(ps: seq<Piece>, s: string)
    decreases |ps|, |s|
  {
    if ps == [] then true
    else if !ps[0].star then s != [] && AtomMatches(ps[0].atom, s[0]) && MatchHere(ps[1..], s[1..])
    else MatchHere(ps[1..], s) || (s != [] && AtomMatches(ps[0].atom, s[0]) && MatchHere(ps, s[1..]))
  }

  /** `re.search`: the pieces match starting at some position of `s`. */
  predicate Search(ps: seq<Piece>, s: string)
    decreases |s|
  {
    MatchHere(ps, s) || (s != [] && Search(ps, s[1..]))
  }

  /** `Search` holds exactly when a match starts at some position. */
  lemma {:induction false} SearchIff(ps: seq<Piece>, s: string)
    ensures Search(ps, s) <==> exists i :: 0 <= i <= |s| && MatchHere(ps, s[i..])
    decreases |s|
  {
    if MatchHere(ps, s) {
      assert s[0..] == s;
    } else if s != [] {
      SearchIff(ps, s[1..]);
      if Search(ps, s[1..]) {
        var i :| 0 <= i <= |s[1..]| && MatchHere(ps, s[1..][i..]);
        assert s[1..][i..] == s[i + 1..];
      } else {
        forall i | 0 <= i <= |s| ensures !MatchHere(ps, s[i..]) {
          if i > 0 {
            assert s[1..][i - 1..] == s[i..];
          } else {
            assert s[0..] == s;
          }
        }
      }
    }
  }

  predicate Plain(lit: string) { forall i :: 0 <= i < |lit| ==> lit[i] != '*' && lit[i] != '.' }

  /** The pieces of a plain literal followed by `*`, as the loaders' patterns `hhrr1996225*` are. */
  lemma {:induction false} PiecesOfLiteralStar(lit: string)
    requires Plain(lit)
    ensures PatternPieces(lit + "*") == Lits(lit) + [Piece(AnyChar, true)]
    decreases |lit|
  {
    if lit == [] {
      assert lit + "*" == "*";
    } else {
      assert (lit + "*")[1..] == lit[1..] + "*";
      PiecesOfLiteralStar(lit[1..]);
    }
  }

  function Lits(lit: string): (r: seq<Piece>)
    ensures |r| == |lit|
    decreases |lit|
  {
    if lit == [] then [] else [Piece(Lit(lit[0]), false)] + Lits(lit[1..])
  }

  lemma {:induction false} LitsThenRun(lit: string, s: string)
    ensures MatchHere(Lits(lit) + [Piece(AnyChar, true)], s) <==> IsPrefix(lit, s)
    decreases |lit|
  {
    var ps := Lits(lit) + [Piece(AnyChar, true)];
    if lit == [] {
      assert ps == [Piece(AnyChar, true)];
      assert ps[1..] == [];
    } else {
      assert ps[0] == Piece(Lit(lit[0]), false);
      assert ps[1..] == Lits(lit[1..]) + [Piece(AnyChar, true)];
      if s != [] {
        LitsThenRun(lit[1..], s[1..]);
        if IsPrefix(lit[1..], s[1..]) && s[0] == lit[0] {
          assert s[..|lit|] == [s[0]] + s[1..][..|lit| - 1];
          assert lit == [lit[0]] + lit[1..];
        }
        if IsPrefix(lit, s) {
          assert s[1..][..|lit| - 1] == s[..|lit|][1..];
        }
      }
    }
  }

  /** Searching for `lit*` finds every href that contains `lit` anywhere, not only those that
      start with it: the `ls` pattern is not anchored, unlike the local glob. */
  lemma {:induction false} LiteralStarSearch(lit: string, s: string)
    requires Plain(lit)
    ensures Search(PatternPieces(lit + "*"), s) <==> Contains(s, lit)
    decreases |s|
  {
    PiecesOfLiteralStar(lit);
    LitsThenRun(lit, s);
    if s != [] {
      LiteralStarSearch(lit, s[1..]);
    }
  }

  /** The `?` filter and the pattern, in page order. */
  function KeepHrefs(hrefs: seq<string>, ps: seq<Piece>): (r: seq<string>)
    ensures forall h :: h in r <==> h in hrefs && Search(ps, h) && '?' !in h
    ensures IsSubsequence(r, hrefs)
    decreases |hrefs|
  {
    if hrefs == [] then []
    else
      var rest := KeepHrefs(hrefs[1..], ps);
      if Search(ps, hrefs[0]) && '?' !in hrefs[0] then
        assert ([hrefs[0]] + rest)[1..] == rest;
        [hrefs[0]] + rest
      else rest
  }

  /** `a` is `b` with some elements left out, the rest in the same order. */
  predicate IsSubsequence(a: seq<string>, b: seq<string>)
    decreases |b|
  {
    if a == [] then true
    else if b == [] then false
    else (a[0] == b[0] && IsSubsequence(a[1..], b[1..])) || IsSubsequence(a, b[1..])
  }

  /** `_search_hrefs`: the hrefs of the page that the translated pattern finds and that hold
      no '?', in page order; none at all raises FileNotFoundError. */
  function SearchHrefs(hrefs: seq<string>, pattern: string): (r: Result<seq<string>>)
    ensures r.Ok? ==> r.value != [] && IsSubsequence(r.value, hrefs)
    ensures r.Ok? ==> forall h :: h in r.value <==> h in hrefs && Search(PatternPieces(pattern), h) && '?' !in h
    ensures r.Err? <==> forall h :: h in hrefs ==> !Search(PatternPieces(pattern), h) || '?' in h
    ensures r.Err? ==> r.error == FileNotFoundError
  {
    TranslateCompiles(pattern);
    match Compile(Translate(pattern))
    case Err(e) => assert false; Err(e)
    case Ok(ps) =>
      var kept := KeepHrefs(hrefs, ps);
      if kept == [] then Err(FileNotFoundError)
      else
        assert kept[0] in kept;
        Ok(kept)
  }

  /** With the default pattern `*` every href without '?' is kept. */
  lemma DefaultPatternKeepsAll(hrefs: seq<string>, h: string)
    requires h in hrefs && '?' !in h
    ensures SearchHrefs(hrefs, "*").Ok? && h in SearchHrefs(hrefs, "*").value
  {
    var ps := PatternPieces("*");
    assert ps == [Piece(AnyChar, true)];
    assert MatchHere(ps, h) by {
      assert ps[1..] == [];
    }
  }

  // ---------------------------------------------------------------------------------------
  // URLs: `urllib.parse.urljoin` and `pathlib.Path(url).name`.

  /** Position of the first occurrence of `c`, or -1. */
  function IndexOf(s: string, c: char): (r: int)
    ensures -1 <= r < |s|
    ensures r >= 0 ==> s[r] == c
    ensures forall i :: 0 <= i < |s| && (r == -1 || i < r) ==> s[i] != c
    decreases |s|
  {
    if s == [] then -1
    else if s[0] == c then 0
    else
      var k := IndexOf(s[1..], c);
      if k == -1 then -1 else k + 1
  }

  /** Position of the last '/', or -1. */
  function LastSlash(s: string): (r: int)
    ensures -1 <= r < |s|
    ensures r >= 0 ==> s[r] == '/'
    ensures forall i :: r < i < |s| ==> s[i] != '/'
    decreases |s|
  {
    if s == [] then -1
    else if s[|s| - 1] == '/' then |s| - 1
    else LastSlash(s[..|s| - 1])
  }

  predicate IsAsciiLetter(c: char) { 'a' <= c <= 'z' || 'A' <= c <= 'Z' }

  predicate SchemeChar(c: char) { IsAsciiLetter(c) || IsDigit(c) || c == '+' || c == '-' || c == '.' }

  /** Where `urlsplit` ends the scheme: the first ':' after a letter and scheme characters. */
  function SchemeEnd(u: string): (r: int)
    ensures -1 <= r < |u|
    ensures r >= 0 ==> r > 0 && u[r] == ':'
  {
    var k := IndexOf(u, ':');
    if k > 0 && IsAsciiLetter(u[0]) && (forall i :: 0 <= i < k ==> SchemeChar(u[i])) then k else -1
  }

  /** The end of `scheme://authority` of a URL (0 without a scheme). */
  function OriginEnd(u: string): (r: int)
    ensures 0 <= r <= |u|
  {
    var k := SchemeEnd(u);
    if k < 0 then 0
    else if k + 3 <= |u| && u[k + 1..k + 3] == "//" then
      var j := IndexOf(u[k + 3..], '/');
      if j < 0 then |u| else k + 3 + j
    else k + 1
  }

  /** `urljoin(base, ref)` for the references a directory listing holds. A reference with a
      scheme stands alone; an empty one is the base; `//host...` keeps the base's scheme,
      `/path` its scheme and authority; any other replaces what follows the base's last '/'
      (section 5.2 of RFC 3986, without the removal of dot segments). */
  function UrlJoin(base: string, ref: string): string {
    if SchemeEnd(ref) >= 0 then ref
    else if ref == [] then base
    else if |ref| >= 2 && ref[..2] == "//" then
      (if SchemeEnd(base) >= 0 then base[..SchemeEnd(base) + 1] + ref else ref)
    else if ref[0] == '/' then base[..OriginEnd(base)] + ref
    else if LastSlash(base) >= OriginEnd(base) then base[..LastSlash(base) + 1] + ref
    else base[..OriginEnd(base)] + "/" + ref
  }

  /** A relative file name under a directory URL: the reference is appended to the base. */
  predicate RelativeName(ref: string) {
    ref != [] && '/' !in ref && ':' !in ref
  }

  lemma UrlJoinRelative(base: string, ref: string)
    requires base != [] && base[|base| - 1] == '/' && OriginEnd(base) <= |base| - 1
    requires ref != [] && ref[0] != '/' && ':' !in ref
    ensures UrlJoin(base, ref) == base + ref
  {
    assert SchemeEnd(ref) < 0 by {
      var k := IndexOf(ref, ':');
      assert k == -1;
    }
    assert base[..|base|] == base;
  }

  /** The text after the last '/'. */
  function TrailingSegment(s: string): (r: string)
    ensures '/' !in r && |r| <= |s|
    ensures |r| < |s| ==> s[|s| - |r| - 1] == '/'
    decreases |s|
  {
    if s == [] || s[|s| - 1] == '/' then []
    else TrailingSegment(s[..|s| - 1]) + [s[|s| - 1]]
  }

  lemma {:induction false} TrailingAfterSlash(base: string, seg: string)
    requires base != [] && base[|base| - 1] == '/' && '/' !in seg
    ensures TrailingSegment(base + seg) == seg
    decreases |seg|
  {
    if seg == [] {
      assert base + seg == base;
    } else {
      var s := base + seg;
      assert s[..|s| - 1] == base + seg[..|seg| - 1];
      assert s[|s| - 1] == seg[|seg| - 1];
      assert seg[|seg| - 1] in seg;
      TrailingAfterSlash(base, seg[..|seg| - 1]);
      assert seg[..|seg| - 1] + [seg[|seg| - 1]] == seg;
    }
  }

  /** `pathlib.Path(url).name`: the last component, where empty components (from a trailing
      or doubled '/') and "." are not components. */
  function UrlName(s: string): (r: string)
    ensures '/' !in r && r != "."
    decreases |s|
  {
    if s == [] then ""
    else
      var seg := TrailingSegment(s);
      if seg != [] && seg != "." then seg
      else if |seg| == |s| then ""
      else UrlName(s[..|s| - |seg| - 1])
  }

  /** The name of `dir/seg` is `seg`. */
  lemma NameAfterSlash(base: string, seg: string)
    requires base != [] && base[|base| - 1] == '/'
    requires seg != [] && seg != "." && '/' !in seg
    ensures UrlName(base + seg) == seg
  {
    TrailingAfterSlash(base, seg);
  }

  /** A directory name ending in '/' is named without it (`ls` of a parent directory). */
  lemma NameOfDirectory(base: string, seg: string)
    requires base != [] && base[|base| - 1] == '/'
    requires seg != [] && seg != "." && '/' !in seg
    ensures UrlName(base + seg + "/") == seg
  {
    var s := base + seg + "/";
    assert TrailingSegment(s) == [];
    assert s[..|s| - 0 - 1] == base + seg;
    NameAfterSlash(base, seg);
  }

  // ---------------------------------------------------------------------------------------
  // Streamed download: counters of the progress bar.

  /** Python's `round(n / d)` for a non-negative quotient: the nearest integer, ties to even. */
  function RoundHalfEven(n: nat, d: nat): (q: nat)
    requires d > 0
    ensures d * (2 * q) <= 2 * n + d && 2 * n <= d * (2 * q) + d
    ensures 2 * n == d * (2 * q) + d ==> q % 2 == 0
    ensures 2 * n + d == d * (2 * q) ==> q % 2 == 0
  {
    var q, r := n / d, n % d;
    var res := if 2 * r > d then q + 1 else if 2 * r < d then q else if q % 2 == 0 then q else q + 1;
    RoundCases(n, d, q, r, res);
    res
  }

  /** The rounding argument on an explicit quotient and remainder `n == d * q + r`. */
  lemma RoundCases(n: nat, d: nat, q: nat, r: nat, res: nat)
    requires d > 0 && n == d * q + r && r < d
    requires res == if 2 * r > d then q + 1 else if 2 * r < d then q else if q % 2 == 0 then q else q + 1
    ensures d * (2 * res) <= 2 * n + d && 2 * n <= d * (2 * res) + d
    ensures 2 * n == d * (2 * res) + d ==> res % 2 == 0
    ensures 2 * n + d == d * (2 * res) ==> res % 2 == 0
  {
    DoubledProducts(d, q);
  }

  /** `d * (2 * q)` and `d * (2 * (q + 1))` in terms of `d * q`, so the rounding proof stays linear. */
  lemma DoubledProducts(d: nat, q: nat)
    ensures d * (2 * q) == 2 * (d * q) && d * (2 * (q + 1)) == 2 * (d * q) + 2 * d
  {
  }

  /** One line of the progress display: bytes so far, rounded percent and number of '#'. */
  datatype Progress = Progress(bytes: nat, percent: nat, bar: nat)

  /** The display after `bytes` of a `size`-byte file: `round(100 * bytes / size)` percent and
      `percent // 5` marks. */
  function Step(bytes: nat, size: nat): Progress
    requires size > 0
  {
    var p := RoundHalfEven(100 * bytes, size);
    Progress(bytes, p, p / 5)
  }

  /** The bar never exceeds its 20 columns while no more than Content-Length bytes arrived. */
  lemma StepBounded(bytes: nat, size: nat)
    requires 0 < size && bytes <= size
    ensures Step(bytes, size).percent <= 100 && Step(bytes, size).bar <= 20
    ensures bytes == size ==> Step(bytes, size).percent == 100 && Step(bytes, size).bar == 20
  {
    var p := RoundHalfEven(100 * bytes, size);
    assert size * (2 * p) <= 2 * (100 * bytes) + size;
    assert 2 * (100 * bytes) + size <= size * 201;
    MulLess(size, 2 * p, 201);
    if bytes == size {
      assert 2 * (100 * bytes) <= size * (2 * p) + size;
      MulLess(size, 199, 2 * p);
    }
  }

  lemma MulLess(a: int, x: int, y: int)
    requires a > 0 && a * x <= a * y
    ensures x <= y
  {
  }

  function Sum(c: seq<nat>): nat
    decreases |c|
  {
    if c == [] then 0 else c[0] + Sum(c[1..])
  }

  lemma {:induction false} SumSnoc(c: seq<nat>, x: nat)
    ensures Sum(c + [x]) == Sum(c) + x
    decreases |c|
  {
    if c == [] {
      assert c + [x] == [x];
    } else {
      assert (c + [x])[1..] == c[1..] + [x];
      SumSnoc(c[1..], x);
    }
  }

  /** The displays printed for the chunks, `before` bytes having arrived earlier. */
  function Progression(c: seq<nat>, size: nat, before: nat): (r: seq<Progress>)
    requires size > 0
    ensures |r| == |c|
    decreases |c|
  {
    if c == [] then [] else [Step(before + c[0], size)] + Progression(c[1..], size, before + c[0])
  }

  /** `downloaded_bites` after the i-th chunk is the running sum of the chunk lengths. */
  lemma {:induction false} ProgressionBytes(c: seq<nat>, size: nat, before: nat, i: nat)
    requires size > 0 && i < |c|
    ensures Progression(c, size, before)[i] == Step(before + Sum(c[..i + 1]), size)
    decreases i
  {
    if i > 0 {
      ProgressionBytes(c[1..], size, before + c[0], i - 1);
      assert c[..i + 1] == [c[0]] + c[1..][..i];
      assert ([c[0]] + c[1..][..i])[1..] == c[1..][..i];
    } else {
      assert c[..1] == [c[0]];
      assert [c[0]][1..] == [];
    }
  }

  lemma {:induction false} ProgressionSnoc(c: seq<nat>, x: nat, size: nat, before: nat)
    requires size > 0
    ensures Progression(c + [x], size, before) == Progression(c, size, before) + [Step(before + Sum(c) + x, size)]
    decreases |c|
  {
    if c == [] {
      assert c + [x] == [x];
      assert [x][1..] == [];
    } else {
      assert (c + [x])[1..] == c[1..] + [x];
      ProgressionSnoc(c[1..], x, size, before + c[0]);
    }
  }

  // ---------------------------------------------------------------------------------------
  // `ls` and `download` as functions of the servers and the local files.

  /** `ls(match)` as a list of URLs: the host must answer, with a status outside 400..599, and
      the matched hrefs are joined to the listed URL in page order. */
  function LsUrls(web: Web, url: string, pattern: string): (r: Result<seq<string>>)
    ensures r.Err? ==> r.error == RequestFailed || r.error == ConnectionError || r.error == FileNotFoundError
    ensures url !in web ==> r == Err(RequestFailed)
    ensures url in web && StatusRejected(web[url].status) ==> r == Err(ConnectionError)
    ensures url in web && !StatusRejected(web[url].status) ==>
      match SearchHrefs(web[url].hrefs, pattern)
      case Err(e) => r == Err(e)
      case Ok(hs) => r.Ok? && |r.value| == |hs| && forall i :: 0 <= i < |hs| ==> r.value[i] == UrlJoin(url, hs[i])
  {
    if url !in web then Err(RequestFailed)
    else if StatusRejected(web[url].status) then Err(ConnectionError)
    else match SearchHrefs(web[url].hrefs, pattern)
      case Err(e) => Err(e)
      case Ok(hs) => Ok(seq(|hs|, i requires 0 <= i < |hs| => UrlJoin(url, hs[i])))
  }

  /** Under a directory URL, every matched file href comes back as that directory's URL
      followed by the href, and is named by it. */
  lemma LsChildren(web: Web, url: string, pattern: string, i: nat)
    requires url != [] && url[|url| - 1] == '/' && OriginEnd(url) <= |url| - 1
    requires LsUrls(web, url, pattern).Ok? && i < |LsUrls(web, url, pattern).value|
    requires RelativeName(SearchHrefs(web[url].hrefs, pattern).value[i])
    requires SearchHrefs(web[url].hrefs, pattern).value[i] != "."
    ensures LsUrls(web, url, pattern).value[i] == url + SearchHrefs(web[url].hrefs, pattern).value[i]
    ensures UrlName(LsUrls(web, url, pattern).value[i]) == SearchHrefs(web[url].hrefs, pattern).value[i]
  {
    var h := SearchHrefs(web[url].hrefs, pattern).value[i];
    UrlJoinRelative(url, h);
    NameAfterSlash(url, h);
  }

  /** The outcome of `download`: the path of an existing file left alone, or the path written
      with the bytes written and the progress displays printed. */
  datatype Fetch = Cached(path: LocalPath) | Fetched(path: LocalPath, written: nat, progress: seq<Progress>)

  /** The directory `download` uses: its argument, else the stored one, else ValueError. */
  function EffectiveDir(arg: Option<seq<string>>, stored: Option<seq<string>>): (r: Result<seq<string>>)
    ensures r.Err? <==> arg.None? && stored.None?
    ensures r.Err? ==> r.error == ValueError
    ensures arg.Some? ==> r == Ok(arg.value)
    ensures arg.None? && stored.Some? ==> r == Ok(stored.value)
  {
    if arg.Some? then Ok(arg.value)
    else if stored.Some? then Ok(stored.value)
    else Err(ValueError)
  }

  /** `download` once the directory is known: the destination is the directory joined with
      the URL's name; an existing destination is kept unless `overwrite`; otherwise the body
      is fetched, in one piece or chunk by chunk with a progress display. */
  function DownloadSpec(web: Web, url: string, dir: seq<string>, existing: set<LocalPath>, overwrite: bool, stream: bool): (r: Result<Fetch>)
    ensures r.Ok? ==> r.value.path == LocalPath(dir, UrlName(url))
    ensures LocalPath(dir, UrlName(url)) in existing && !overwrite ==> r == Ok(Cached(LocalPath(dir, UrlName(url))))
    ensures r.Ok? && r.value.Cached? ==> LocalPath(dir, UrlName(url)) in existing && !overwrite
    ensures r.Ok? && r.value.Fetched? ==> url in web && r.value.written == Sum(web[url].chunks)
    ensures r.Ok? && r.value.Fetched? && !stream ==> r.value.progress == []
    ensures r.Ok? && r.value.Fetched? && stream ==>
      (web[url].contentLength.Some? && |r.value.progress| == |web[url].chunks| &&
       forall i :: 0 <= i < |web[url].chunks| ==> r.value.progress[i].bytes == Sum(web[url].chunks[..i + 1]))
    ensures r.Ok? && r.value.Fetched? && stream && web[url].chunks != [] ==>
      (web[url].contentLength.value > 0 &&
       r.value.progress == Progression(web[url].chunks, web[url].contentLength.value, 0))
    ensures r.Err? ==> r.error in {RequestFailed, TypeError, ZeroDivisionError}
    ensures !stream ==> (r.Ok? <==> (LocalPath(dir, UrlName(url)) in existing && !overwrite) || url in web)
    ensures stream ==>
      (r.Ok? <==>
         (LocalPath(dir, UrlName(url)) in existing && !overwrite) ||
         (url in web && web[url].contentLength.Some? && (web[url].contentLength.value > 0 || web[url].chunks == [])))
    ensures r == Err(RequestFailed) <==> !(LocalPath(dir, UrlName(url)) in existing && !overwrite) && url !in web
    ensures r == Err(TypeError) <==>
      stream && !(LocalPath(dir, UrlName(url)) in existing && !overwrite) && url in web && web[url].contentLength.None?
    ensures r == Err(ZeroDivisionError) <==>
      stream && !(LocalPath(dir, UrlName(url)) in existing && !overwrite) && url in web &&
      web[url].contentLength == Some(0) && web[url].chunks != []
  {
    var path := LocalPath(dir, UrlName(url));
    if path in existing && !overwrite then Ok(Cached(path))
    else if url !in web then Err(RequestFailed)
    else
      var resp := web[url];
      if !stream then Ok(Fetched(path, Sum(resp.chunks), []))
      else if resp.contentLength.None? then Err(TypeError)
      else if resp.contentLength.value == 0 && resp.chunks != [] then Err(ZeroDivisionError)
      else if resp.chunks == [] then Ok(Fetched(path, 0, []))
      else
        var p := Progression(resp.chunks, resp.contentLength.value, 0);
        assert forall i :: 0 <= i < |resp.chunks| ==> p[i].bytes == Sum(resp.chunks[..i + 1]) by {
          forall i | 0 <= i < |resp.chunks| ensures p[i].bytes == Sum(resp.chunks[..i + 1]) {
            ProgressionBytes(resp.chunks, resp.contentLength.value, 0, i);
          }
        }
        Ok(Fetched(path, Sum(resp.chunks), p))
  }

  /** When the body is no longer than its Content-Length, the bar stays within 20 marks and
      the last display shows 100% exactly when the whole length arrived. */
  lemma StreamBarBounded(web: Web, url: string, dir: seq<string>, existing: set<LocalPath>, overwrite: bool, i: nat)
    requires DownloadSpec(web, url, dir, existing, overwrite, true).Ok?
    requires DownloadSpec(web, url, dir, existing, overwrite, true).value.Fetched?
    requires Sum(web[url].chunks) <= web[url].contentLength.value
    requires i < |web[url].chunks|
    ensures DownloadSpec(web, url, dir, existing, overwrite, true).value.progress[i].bar <= 20
  {
    var c := web[url].chunks;
    ProgressionBounded(c, web[url].contentLength.value, i);
  }

  lemma ProgressionBounded(c: seq<nat>, size: nat, i: nat)
    requires size > 0 && Sum(c) <= size && i < |c|
    ensures Progression(c, size, 0)[i].bar <= 20
  {
    PrefixSumBounded(c, i + 1);
    ProgressionBytes(c, size, 0, i);
    StepBounded(Sum(c[..i + 1]), size);
  }

  lemma {:induction false} PrefixSumBounded(c: seq<nat>, k: nat)
    requires k <= |c|
    ensures Sum(c[..k]) <= Sum(c)
    decreases |c| - k
  {
    if k < |c| {
      PrefixSumBounded(c, k + 1);
      assert c[..k + 1] == c[..k] + [c[k]];
      SumSnoc(c[..k], c[k]);
    } else {
      assert c[..k] == c;
    }
  }

  // ---------------------------------------------------------------------------------------

  /** The streaming loop of `download`: the bytes are counted chunk by chunk and one progress
      line is shown per chunk; the percentage divides by the announced size. */
  method Stream(chunks: seq<nat>, size: nat) returns (r: Result<(nat, seq<Progress>)>)
    ensures size == 0 && chunks != [] ==> r == Err(ZeroDivisionError)
    ensures size > 0 ==> r == Ok((Sum(chunks), Progression(chunks, size, 0)))
    ensures chunks == [] ==> r == Ok((0, []))
  {
    var downloaded: nat := 0;
    var shown: seq<Progress> := [];
    for i := 0 to |chunks|
      invariant size == 0 ==> i == 0
      invariant downloaded == Sum(chunks[..i])
      invariant shown == if size > 0 then Progression(chunks[..i], size, 0) else []
    {
      if size == 0 {
        return Err(ZeroDivisionError);
      }
      assert chunks[..i + 1] == chunks[..i] + [chunks[i]];
      SumSnoc(chunks[..i], chunks[i]);
      ProgressionSnoc(chunks[..i], chunks[i], size, 0);
      downloaded := downloaded + chunks[i];
      shown := shown + [Step(downloaded, size)];
    }
    assert chunks[..|chunks|] == chunks;
    return Ok((downloaded, shown));
  }

  /** One child `Downloader` per href, in order, each joined to `url` and sharing `dir`. */
  method Children(url: string, hrefs: seq<string>, dir: Option<seq<string>>) returns (children: seq<Downloader>)
    ensures |children| == |hrefs|
    ensures forall j :: 0 <= j < |hrefs| ==>
      fresh(children[j]) && children[j].url == UrlJoin(url, hrefs[j]) && children[j].downloadDir == dir
  {
    children := [];
    for i := 0 to |hrefs|
      invariant |children| == i
      invariant forall j :: 0 <= j < i ==>
        fresh(children[j]) && children[j].url == UrlJoin(url, hrefs[j]) && children[j].downloadDir == dir
    {
      var child := new Downloader(UrlJoin(url, hrefs[i]), dir);
      children := children + [child];
    }
  }

  /** `sampex.Downloader`: a URL and the directory its file is saved to. */
  class Downloader {
    const url: string
    var downloadDir: Option<seq<string>>

    constructor(url: string, downloadDir: Option<seq<string>>)
      ensures this.url == url && this.downloadDir == downloadDir
    {
      this.url := url;
      this.downloadDir := downloadDir;
    }

    /** `name()`: the last component of the URL. */
    function Name(): string {
      UrlName(url)
    }

    /** `ls(match)`: refuse a 4xx/5xx status, search the page's hrefs and build one child
        per href, in order, sharing this downloader's directory. */
    method Ls(web: Web, pattern: string) returns (r: Result<seq<Downloader>>)
      ensures r.Ok? <==> LsUrls(web, url, pattern).Ok?
      ensures r.Err? ==> r.error == LsUrls(web, url, pattern).error
      ensures r.Ok? ==> |r.value| == |LsUrls(web, url, pattern).value|
      ensures r.Ok? ==> forall i :: 0 <= i < |r.value| ==>
        fresh(r.value[i]) && r.value[i].url == LsUrls(web, url, pattern).value[i] && r.value[i].downloadDir == downloadDir
    {
      if url !in web {
        return Err(RequestFailed);
      }
      if StatusRejected(web[url].status) {
        return Err(ConnectionError);
      }
      var matched := SearchHrefs(web[url].hrefs, pattern);
      if matched.Err? {
        return Err(matched.error);
      }
      var children := Children(url, matched.value, downloadDir);
      return Ok(children);
    }

    /** `download(download_dir, overwrite, stream)`: a directory argument replaces the stored
        one; the file is fetched unless it exists and `overwrite` is false; a streamed body
        is counted chunk by chunk. */
    method Download(web: Web, existing: set<LocalPath>, dirArg: Option<seq<string>>, overwrite: bool, stream: bool)
      returns (r: Result<Fetch>)
      modifies this
      ensures downloadDir == if dirArg.Some? then dirArg else old(downloadDir)
      ensures r == match EffectiveDir(dirArg, old(downloadDir))
        case Err(e) => Err(e)
        case Ok(dir) => DownloadSpec(web, url, dir, existing, overwrite, stream)
    {
      if dirArg.None? && downloadDir.None? {
        return Err(ValueError);
      }
      if dirArg.Some? {
        downloadDir := dirArg;
      }
      var dir := downloadDir.value;
      var path := LocalPath(dir, UrlName(url));
      if path in existing && !overwrite {
        return Ok(Cached(path));
      }
      if url !in web {
        return Err(RequestFailed);
      }
      var resp := web[url];
      if !stream {
        return Ok(Fetched(path, Sum(resp.chunks), []));
      }
      if resp.contentLength.None? {
        return Err(TypeError);
      }
      var streamed := Stream(resp.chunks, resp.contentLength.value);
      if streamed.Err? {
        return Err(streamed.error);
      }
      return Ok(Fetched(path, streamed.value.0, streamed.value.1));
    }
  }
}
