/** How the HILT, PET and LICA loaders find a day's file: search the data directory with a
    glob, take the first local match when the count of matches is acceptable, otherwise list
    the archive's directory and download the first matching file. */
module Locate {
  import opened Errors
  import opened Text
  import opened Paths
  import opened Download

  /** What a loader can see: the configured data directory, every entry below it in the
      order `rglob` walks them, the servers, and the paths that already exist locally. */
  datatype Env = Env(dataDir: seq<string>, files: seq<LocalPath>, web: Web, existing: set<LocalPath>)

  /** The decision made from the local matches alone. */
  datatype Choice = UseLocal(path: LocalPath) | FetchRemote

  /** The count test of `_find_file`: one match (or, when `allowPair`, two, a file and its
      zip) is used as is, none sends the loader to the archive, more raise FileNotFoundError. */
  function Choose(matches: seq<LocalPath>, allowPair: bool): (r: Result<Choice>)
    ensures (r.Ok? && r.value.UseLocal?) <==> (|matches| == 1 || (allowPair && |matches| == 2))
    ensures r.Ok? && r.value.UseLocal? ==> r.value.path == matches[0]
    ensures r == Ok(FetchRemote) <==> matches == []
    ensures r.Err? <==> |matches| > (if allowPair then 2 else 1)
    ensures r.Err? ==> r.error == FileNotFoundError
  {
    if |matches| == 1 || (allowPair && |matches| == 2) then Ok(UseLocal(matches[0]))
    else if |matches| == 0 then Ok(FetchRemote)
    else Err(FileNotFoundError)
  }

  /** LICA's exact-one rule accepts a subset of what HILT and PET accept, and decides alike. */
  lemma ExactOneStricter(matches: seq<LocalPath>)
    ensures Choose(matches, false).Ok? ==> Choose(matches, true) == Choose(matches, false)
    ensures |matches| == 2 ==> Choose(matches, false).Err? && Choose(matches, true).Ok?
  {
  }

  /** `Downloader(url, download_dir=dir).ls(match=pattern)[0].download()`: the first listed
      match is saved under `dir`, or found there already. */
  function FirstRemote(env: Env, url: string, dir: seq<string>, pattern: string): (r: Result<LocalPath>)
    ensures LsUrls(env.web, url, pattern).Err? ==> r == Err(LsUrls(env.web, url, pattern).error)
    ensures r.Ok? ==>
      (LsUrls(env.web, url, pattern).Ok? && r.value == LocalPath(dir, UrlName(LsUrls(env.web, url, pattern).value[0])))
    ensures LsUrls(env.web, url, pattern).Ok? ==>
      (r.Ok? <==> LsUrls(env.web, url, pattern).value[0] in env.web ||
                  LocalPath(dir, UrlName(LsUrls(env.web, url, pattern).value[0])) in env.existing)
  {
    match LsUrls(env.web, url, pattern)
    case Err(e) => Err(e)
    case Ok(urls) =>
      match DownloadSpec(env.web, urls[0], dir, env.existing, false, false)
      case Err(e) => Err(e)
      case Ok(f) => Ok(f.path)
  }

  /** The imperative form of `FirstRemote`, through `Downloader` objects. */
  method FetchFirst(env: Env, url: string, dir: seq<string>, pattern: string) returns (r: Result<LocalPath>)
    ensures r == FirstRemote(env, url, dir, pattern)
  {
    var d := new Downloader(url, Some(dir));
    var listed := d.Ls(env.web, pattern);
    if listed.Err? {
      return Err(listed.error);
    }
    var first := listed.value[0];
    var fetched := first.Download(env.web, env.existing, None, false, false);
    if fetched.Err? {
      return Err(fetched.error);
    }
    return Ok(fetched.value.path);
  }

  /** The whole search of one of the per-day loaders. */
  function LocateFile(env: Env, pattern: string, allowPair: bool, url: string, dir: seq<string>): (r: Result<LocalPath>)
    ensures Choose(Rglob(env.files, pattern), allowPair).Err? ==> r == Err(FileNotFoundError)
    ensures Rglob(env.files, pattern) == [] ==> r == FirstRemote(env, url, dir, pattern)
    ensures Choose(Rglob(env.files, pattern), allowPair).Ok? && Rglob(env.files, pattern) != [] ==>
      r == Ok(Rglob(env.files, pattern)[0])
  {
    match Choose(Rglob(env.files, pattern), allowPair)
    case Err(e) => Err(e)
    case Ok(UseLocal(p)) => Ok(p)
    case Ok(FetchRemote) => FirstRemote(env, url, dir, pattern)
  }

  method FindFile(env: Env, pattern: string, allowPair: bool, url: string, dir: seq<string>) returns (r: Result<LocalPath>)
    ensures r == LocateFile(env, pattern, allowPair, url, dir)
  {
    var matches := Rglob(env.files, pattern);
    var choice := Choose(matches, allowPair);
    if choice.Err? {
      return Err(choice.error);
    }
    if choice.value.UseLocal? {
      return Ok(choice.value.path);
    }
    r := FetchFirst(env, url, dir, pattern);
  }

  /** A usable local match makes no request: the servers do not affect the outcome. */
  lemma LocalNeedsNoServer(env: Env, web: Web, pattern: string, allowPair: bool, url: string, dir: seq<string>)
    requires Rglob(env.files, pattern) != []
    ensures LocateFile(env, pattern, allowPair, url, dir) == LocateFile(env.(web := web), pattern, allowPair, url, dir)
  {
  }

  /** A file that already exists below the download directory is never fetched again: when
      the first listed match exists, the servers' bodies do not matter. */
  lemma CachedNeedsNoBody(env: Env, url: string, dir: seq<string>, pattern: string)
    requires LsUrls(env.web, url, pattern).Ok?
    requires LocalPath(dir, UrlName(LsUrls(env.web, url, pattern).value[0])) in env.existing
    ensures FirstRemote(env, url, dir, pattern) == Ok(LocalPath(dir, UrlName(LsUrls(env.web, url, pattern).value[0])))
  {
  }

  /** The local search pattern `<prefix><YEARDOY>*` selects exactly the entries whose names
      start with the prefix and the key. */
  lemma KeyPattern(prefix: string, key: string, p: LocalPath)
    requires NoStar(prefix) && AllDigits(key)
    ensures GlobMatch(prefix + key + "*", p.name) <==> IsPrefix(prefix + key, p.name)
  {
    assert NoStar(prefix + key) by {
      forall i | 0 <= i < |prefix + key| ensures (prefix + key)[i] != '*' {
        if i >= |prefix| {
          assert (prefix + key)[i] == key[i - |prefix|];
        }
      }
    }
    GlobPrefix(prefix + key, p.name);
  }

  /** The same pattern on the archive's page is a regular expression searched anywhere in the
      href: it keeps the hrefs that contain the prefix and key at any position. */
  lemma RemoteKeyPattern(prefix: string, key: string, hrefs: seq<string>, h: string)
    requires Plain(prefix) && AllDigits(key)
    requires SearchHrefs(hrefs, prefix + key + "*").Ok?
    ensures h in SearchHrefs(hrefs, prefix + key + "*").value <==> h in hrefs && Contains(h, prefix + key) && '?' !in h
  {
    assert Plain(prefix + key) by {
      forall i | 0 <= i < |prefix + key| ensures (prefix + key)[i] != '*' && (prefix + key)[i] != '.' {
        if i >= |prefix| {
          assert (prefix + key)[i] == key[i - |prefix|];
        }
      }
    }
    LiteralStarSearch(prefix + key, h);
  }
}
