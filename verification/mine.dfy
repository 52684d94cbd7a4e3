/**
 * The pure steps of mining project metadata: recognising and taking apart GitHub URLs, picking
 * the latest PyPI release, choosing the git tag that matches a PyPI version, reading tags out of
 * `git ls-remote` output and selecting the top PyPI packages.
 *
 * The HTTP requests and the `git` process are not modelled: their answers are parameters. A
 * JSON object is a dictionary of strings; an absent key is an absent value.
 */
module Mine {
  import opened Common
  import opened Text
  import opened PyDict
  import opened Ordering
  import Structure

  // ---------------------------------------------------------------------------------------
  // GITHUB_URL_REGEX = https?://(www\.)?github\.com/[^/]+/[^/]+/?$

  /** `https?:` */
  function Scheme(secure: bool): string {
    if secure then "https:" else "http:"
  }

  /** `(www\.)?github\.com` */
  function Host(www: bool): string {
    (if www then "www." else "") + "github.com"
  }

  /** `https?://(www\.)?github\.com/` for each choice of the two optional parts. */
  function GithubPrefix(secure: bool, www: bool): string {
    Scheme(secure) + "//" + Host(www) + "/"
  }

  /** `[^/]+/[^/]+`: exactly two non-empty pieces with one slash between them. */
  predicate OwnerRepoPath(rest: string) {
    var parts := Split(rest, '/');
    |parts| == 2 && parts[0] != "" && parts[1] != ""
  }

  /** `[^/]+/[^/]+/?` running to the end of the text. */
  predicate OwnerRepoTail(rest: string) {
    OwnerRepoPath(rest) || (EndsWith(rest, "/") && OwnerRepoPath(rest[..|rest| - 1]))
  }

  /** The same followed by Python's `$`, which also matches just before a final newline. */
  predicate DollarTail(rest: string) {
    OwnerRepoTail(rest) || (EndsWith(rest, "\n") && OwnerRepoTail(rest[..|rest| - 1]))
  }

  /** `url` starts with `prefix` and what follows satisfies `tail`. */
  predicate After(url: string, prefix: string, tail: string -> bool) {
    StartsWith(url, prefix) && tail(url[|prefix|..])
  }

  /** One of the four prefixes, followed by text satisfying `tail`. */
  predicate GithubThen(url: string, tail: string -> bool) {
    After(url, GithubPrefix(true, false), tail) || After(url, GithubPrefix(true, true), tail) ||
    After(url, GithubPrefix(false, false), tail) || After(url, GithubPrefix(false, true), tail)
  }

  /** `_is_valid_github_url`: `re.match` of GITHUB_URL_REGEX, `$` included. */
  predicate IsValidGithubUrl(url: string) {
    GithubThen(url, DollarTail)
  }

  /** The check the pattern is meant to make: the whole URL has the repository shape. */
  predicate IsGithubRepoUrl(url: string) {
    GithubThen(url, OwnerRepoTail)
  }

  /** `owner/repo`, with or without a trailing slash. */
  function RepoPath(owner: string, repo: string, slash: bool): string {
    owner + "/" + repo + (if slash then "/" else "")
  }

  /** The URL of `owner/repo` on GitHub, with or without a trailing slash. */
  function RepoUrl(secure: bool, www: bool, owner: string, repo: string, slash: bool): string {
    GithubPrefix(secure, www) + RepoPath(owner, repo, slash)
  }

  /** `_extract_github_owner_repo`: the last two slash-separated pieces once one trailing slash is gone. */
  function ExtractGithubOwnerRepo(url: string): (r: Result<(string, string)>)
    ensures r.Err? <==> '/' !in (if EndsWith(url, "/") then url[..|url| - 1] else url)
  {
    var u := if EndsWith(url, "/") then url[..|url| - 1] else url;
    var parts := Split(u, '/');
    if |parts| < 2 then
      assert IndexOf(u, '/') == |u|;
      assert '/' !in u by {
        forall j | 0 <= j < |u| ensures u[j] != '/' { IndexOfFirst(u, '/', j); }
      }
      Err("IndexError: list index out of range")
    else
      assert '/' in u by {
        assert IndexOf(u, '/') < |u|;
      }
      Ok((parts[|parts| - 2], parts[|parts| - 1]))
  }

  /** A repository URL without its trailing slash is the slash-join of five pieces. */
  lemma RepoUrlJoin(secure: bool, www: bool, owner: string, repo: string)
    ensures RepoUrl(secure, www, owner, repo, false) == Join([Scheme(secure), "", Host(www), owner, repo], "/")
    ensures RepoUrl(secure, www, owner, repo, true) == RepoUrl(secure, www, owner, repo, false) + "/"
  {
    var a, h := Scheme(secure), Host(www);
    SlashJoinFive(a, h, owner, repo);
    assert RepoPath(owner, repo, false) == owner + "/" + repo;
    assert RepoUrl(secure, www, owner, repo, true) == GithubPrefix(secure, www) + (owner + "/" + repo) + "/";
  }

  lemma SlashJoinFive(a: string, h: string, owner: string, repo: string)
    ensures Join([a, "", h, owner, repo], "/") == a + "//" + h + "/" + (owner + "/" + repo)
  {
    JoinFive(a, "", h, owner, repo);
    assert a + "/" + "" + "/" + h + "/" + owner + "/" + repo == a + "//" + h + "/" + (owner + "/" + repo);
  }

  /** Splitting a repository URL without its trailing slash gives the five pieces back. */
  lemma RepoUrlSplit(secure: bool, www: bool, owner: string, repo: string)
    requires '/' !in owner && '/' !in repo
    ensures Split(RepoUrl(secure, www, owner, repo, false), '/') == [Scheme(secure), "", Host(www), owner, repo]
  {
    RepoUrlJoin(secure, www, owner, repo);
    var parts := [Scheme(secure), "", Host(www), owner, repo];
    assert '/' !in Scheme(secure) && '/' !in Host(www);
    SplitJoin(parts, '/');
  }

  /** What follows the prefix of a repository URL. */
  lemma RepoUrlRest(secure: bool, www: bool, owner: string, repo: string, slash: bool)
    ensures StartsWith(RepoUrl(secure, www, owner, repo, slash), GithubPrefix(secure, www))
    ensures RepoUrl(secure, www, owner, repo, slash)[|GithubPrefix(secure, www)|..] == RepoPath(owner, repo, slash)
  {
  }

  /** The four prefixes exclude one another: a URL starts with at most one of them. */
  lemma PrefixUnique(url: string, secure: bool, www: bool, secure': bool, www': bool)
    requires StartsWith(url, GithubPrefix(secure, www)) && StartsWith(url, GithubPrefix(secure', www'))
    ensures secure == secure' && www == www'
  {
    assert url[4] == GithubPrefix(secure, www)[4] == GithubPrefix(secure', www')[4];
    assert secure == secure';
    var k := if secure then 8 else 7;
    assert url[k] == GithubPrefix(secure, www)[k] == GithubPrefix(secure', www')[k];
  }

  /** Owner and repository, with an optional trailing slash, satisfy `[^/]+/[^/]+/?$`. */
  lemma OwnerRepoTailOf(owner: string, repo: string, slash: bool)
    requires owner != "" && repo != "" && '/' !in owner && '/' !in repo
    ensures OwnerRepoTail(RepoPath(owner, repo, slash))
  {
    var path := owner + "/" + repo;
    SplitTwo(owner, repo, '/');
    assert path == owner + ['/'] + repo;
    assert OwnerRepoPath(path);
    if slash {
      var r := path + "/";
      assert r[..|r| - 1] == path;
      assert r[|r| - 1..] == "/";
      assert OwnerRepoTail(r);
    } else {
      assert RepoPath(owner, repo, slash) == path;
    }
  }

  /** Text satisfying `[^/]+/[^/]+/?$` is an owner and a repository, with an optional trailing slash. */
  lemma OwnerRepoTailShape(rest: string)
    requires OwnerRepoTail(rest)
    ensures exists owner, repo, slash ::
      (owner != "" && repo != "" && '/' !in owner && '/' !in repo && rest == RepoPath(owner, repo, slash))
  {
    var slash := !OwnerRepoPath(rest);
    var path := if slash then rest[..|rest| - 1] else rest;
    assert rest == path + (if slash then "/" else "");
    var parts := Split(path, '/');
    JoinSplit(path, '/');
    SplitNoSeparator(path, '/', 0);
    SplitNoSeparator(path, '/', 1);
    assert parts[1..] == [parts[1]];
    assert path == parts[0] + "/" + parts[1];
    assert rest == RepoPath(parts[0], parts[1], slash);
  }

  /** Extraction reads the last two pieces of the URL once its trailing slash is gone. */
  lemma ExtractFromPieces(url: string, u: string, parts: seq<string>)
    requires u == (if EndsWith(url, "/") then url[..|url| - 1] else url)
    requires parts == Split(u, '/') && |parts| >= 2
    ensures ExtractGithubOwnerRepo(url) == Ok((parts[|parts| - 2], parts[|parts| - 1]))
  {
  }

  /** A repository URL ends in a slash exactly when it was built with one. */
  lemma RepoUrlTrailingSlash(secure: bool, www: bool, owner: string, repo: string, slash: bool)
    requires repo != "" && '/' !in repo
    ensures EndsWith(RepoUrl(secure, www, owner, repo, slash), "/") <==> slash
    ensures slash ==> RepoUrl(secure, www, owner, repo, slash)[..|RepoUrl(secure, www, owner, repo, slash)| - 1]
                      == RepoUrl(secure, www, owner, repo, false)
  {
    var bare := RepoUrl(secure, www, owner, repo, false);
    var url := RepoUrl(secure, www, owner, repo, slash);
    assert bare == (GithubPrefix(secure, www) + owner + "/") + repo;
    assert bare[|bare| - 1] == repo[|repo| - 1];
    assert repo[|repo| - 1] in repo;
    if slash {
      assert url == bare + "/";
      assert url[..|url| - 1] == bare;
    } else {
      assert url == bare;
    }
  }

  /** Extraction gives back the owner and repository of a repository URL. */
  lemma ExtractRepoUrl(secure: bool, www: bool, owner: string, repo: string, slash: bool)
    requires repo != "" && '/' !in owner && '/' !in repo
    ensures ExtractGithubOwnerRepo(RepoUrl(secure, www, owner, repo, slash)) == Ok((owner, repo))
  {
    var url := RepoUrl(secure, www, owner, repo, slash);
    var bare := RepoUrl(secure, www, owner, repo, false);
    RepoUrlSplit(secure, www, owner, repo);
    RepoUrlTrailingSlash(secure, www, owner, repo, slash);
    ExtractFromPieces(url, bare, Split(bare, '/'));
  }

  /**
   * Every URL of the form `http(s)://[www.]github.com/<owner>/<repo>[/]` with non-empty,
   * slash-free owner and repository passes both checks, and extraction gives back the two names.
   */
  lemma GithubUrlRoundTrip(secure: bool, www: bool, owner: string, repo: string, slash: bool)
    requires owner != "" && repo != "" && '/' !in owner && '/' !in repo
    ensures IsGithubRepoUrl(RepoUrl(secure, www, owner, repo, slash))
    ensures IsValidGithubUrl(RepoUrl(secure, www, owner, repo, slash))
    ensures ExtractGithubOwnerRepo(RepoUrl(secure, www, owner, repo, slash)) == Ok((owner, repo))
  {
    var url := RepoUrl(secure, www, owner, repo, slash);
    RepoUrlRest(secure, www, owner, repo, slash);
    OwnerRepoTailOf(owner, repo, slash);
    assert After(url, GithubPrefix(secure, www), OwnerRepoTail);
    assert After(url, GithubPrefix(secure, www), DollarTail);
    ExtractRepoUrl(secure, www, owner, repo, slash);
  }

  /** A URL with a given prefix and the repository shape after it. */
  lemma RepoUrlShapeAfter(url: string, secure: bool, www: bool)
    requires After(url, GithubPrefix(secure, www), OwnerRepoTail)
    ensures exists owner, repo, slash ::
      (owner != "" && repo != "" && '/' !in owner && '/' !in repo &&
       url == RepoUrl(secure, www, owner, repo, slash))
  {
    var p := GithubPrefix(secure, www);
    var rest := url[|p|..];
    OwnerRepoTailShape(rest);
    var owner, repo, slash :| owner != "" && repo != "" && '/' !in owner && '/' !in repo &&
      rest == RepoPath(owner, repo, slash);
    assert url == p + rest;
    assert url == RepoUrl(secure, www, owner, repo, slash);
  }

  /** Conversely, a URL that has the repository shape is one of those URLs. */
  lemma GithubRepoUrlShape(url: string)
    requires IsGithubRepoUrl(url)
    ensures exists secure, www, owner, repo, slash ::
      (owner != "" && repo != "" && '/' !in owner && '/' !in repo &&
       url == RepoUrl(secure, www, owner, repo, slash))
  {
    if After(url, GithubPrefix(true, false), OwnerRepoTail) {
      RepoUrlShapeAfter(url, true, false);
    } else if After(url, GithubPrefix(true, true), OwnerRepoTail) {
      RepoUrlShapeAfter(url, true, true);
    } else if After(url, GithubPrefix(false, false), OwnerRepoTail) {
      RepoUrlShapeAfter(url, false, false);
    } else {
      RepoUrlShapeAfter(url, false, true);
    }
  }

  /** `owner/repo/` followed by a newline splits into three pieces, so it is not `[^/]+/[^/]+/?`. */
  lemma NewlineTailNotRepo(owner: string, repo: string)
    requires '/' !in owner && '/' !in repo
    ensures !OwnerRepoTail(RepoPath(owner, repo, true) + "\n")
  {
    var rest := RepoPath(owner, repo, true) + "\n";
    var parts := [owner, repo, "\n"];
    JoinThree(owner, repo, "\n");
    assert rest == Join(parts, "/");
    SplitJoin(parts, '/');
    assert rest[|rest| - 1] == '\n';
  }

  /** `owner/repo/` followed by a newline satisfies `[^/]+/[^/]+/?$`, thanks to the newline rule. */
  lemma NewlineTailDollar(owner: string, repo: string)
    requires owner != "" && repo != "" && '/' !in owner && '/' !in repo
    ensures DollarTail(RepoPath(owner, repo, true) + "\n")
  {
    var rest := RepoPath(owner, repo, true) + "\n";
    OwnerRepoTailOf(owner, repo, true);
    assert rest[..|rest| - 1] == RepoPath(owner, repo, true);
    assert rest[|rest| - 1..] == "\n";
  }

  /** Extraction from a repository URL ending in a slash and a newline. */
  lemma ExtractNewlineUrl(secure: bool, www: bool, owner: string, repo: string)
    requires '/' !in owner && '/' !in repo
    ensures ExtractGithubOwnerRepo(RepoUrl(secure, www, owner, repo, true) + "\n") == Ok((repo, "\n"))
  {
    var bare := RepoUrl(secure, www, owner, repo, false);
    var url := RepoUrl(secure, www, owner, repo, true) + "\n";
    var parts5 := [Scheme(secure), "", Host(www), owner, repo];
    RepoUrlJoin(secure, www, owner, repo);
    JoinSnoc(parts5, "\n", "/");
    assert url == Join(parts5 + ["\n"], "/");
    assert '/' !in Scheme(secure) && '/' !in Host(www);
    SplitJoin(parts5 + ["\n"], '/');
    assert !EndsWith(url, "/") by {
      assert url[|url| - 1] == '\n';
    }
    ExtractFromPieces(url, url, parts5 + ["\n"]);
  }

  /** The URL `<prefix>owner/repo/` plus a newline, seen after each possible prefix. */
  lemma NewlineUrlAfter(secure: bool, www: bool, owner: string, repo: string)
    requires owner != "" && repo != "" && '/' !in owner && '/' !in repo
    ensures After(RepoUrl(secure, www, owner, repo, true) + "\n", GithubPrefix(secure, www), DollarTail)
    ensures forall secure', www' :: !After(RepoUrl(secure, www, owner, repo, true) + "\n",
      GithubPrefix(secure', www'), OwnerRepoTail)
  {
    var url := RepoUrl(secure, www, owner, repo, true) + "\n";
    var p := GithubPrefix(secure, www);
    assert url == p + (RepoPath(owner, repo, true) + "\n");
    assert url[|p|..] == RepoPath(owner, repo, true) + "\n";
    NewlineTailDollar(owner, repo);
    NewlineTailNotRepo(owner, repo);
    forall secure', www' ensures !After(url, GithubPrefix(secure', www'), OwnerRepoTail) {
      if StartsWith(url, GithubPrefix(secure', www')) {
        PrefixUnique(url, secure, www, secure', www');
      }
    }
  }

  /**
   * Because `$` also matches before a final newline, a repository URL ending in a slash and a
   * newline passes `_is_valid_github_url`, and extraction then returns the repository as the
   * owner and the newline as the repository.
   */
  lemma TrailingNewlineUrl(secure: bool, www: bool, owner: string, repo: string)
    requires owner != "" && repo != "" && '/' !in owner && '/' !in repo
    ensures IsValidGithubUrl(RepoUrl(secure, www, owner, repo, true) + "\n")
    ensures !IsGithubRepoUrl(RepoUrl(secure, www, owner, repo, true) + "\n")
    ensures ExtractGithubOwnerRepo(RepoUrl(secure, www, owner, repo, true) + "\n") == Ok((repo, "\n"))
  {
    NewlineUrlAfter(secure, www, owner, repo);
    ExtractNewlineUrl(secure, www, owner, repo);
  }

  // ---------------------------------------------------------------------------------------
  // fetch_top_pypi_packages

  /** `s[:n]` in Python: a negative `n` counts from the end. */
  function SliceTo<T>(s: seq<T>, n: int): (r: seq<T>)
    ensures r <= s
    ensures n >= 0 ==> |r| == if n < |s| then n else |s|
    ensures n < 0 ==> |r| == if |s| + n > 0 then |s| + n else 0
  {
    if n >= 0 then (if n < |s| then s[..n] else s)
    else (if |s| + n > 0 then s[..|s| + n] else [])
  }

  predicate HasProject(row: Dict<string, string>) {
    Get(row, "project").Some?
  }

  function ProjectOf(row: Dict<string, string>): string {
    Get(row, "project").GetOr("")
  }

  /**
   * `fetch_top_pypi_packages`, given the decoded response's `rows` (absent when the response
   * has no such key): the `project` of each of the first `topN` rows that has one.
   */
  function FetchTopPypiPackages(rows: Option<seq<Dict<string, string>>>, topN: int): (packages: seq<string>)
    ensures rows.None? ==> packages == []
    ensures rows.Some? ==> |packages| <= |rows.value|
    ensures topN >= 0 ==> |packages| <= topN
  {
    match rows
    case None => []
    case Some(rs) => Map(ProjectOf, Select(HasProject, SliceTo(rs, topN)))
  }

  /** Each package is the `project` of one of the first `topN` rows, and they keep the rows' order. */
  lemma TopPackagesFromRows(rows: seq<Dict<string, string>>, topN: int)
    ensures IsSubseq(FetchTopPypiPackages(Some(rows), topN), Map(ProjectOf, SliceTo(rows, topN)))
    ensures forall p :: p in FetchTopPypiPackages(Some(rows), topN) ==>
      exists i :: 0 <= i < |SliceTo(rows, topN)| && Get(rows[i], "project") == Some(p)
  {
    var sliced := SliceTo(rows, topN);
    SelectIsSubseq(HasProject, sliced);
    MapSubseq(ProjectOf, Select(HasProject, sliced), sliced);
    forall p | p in FetchTopPypiPackages(Some(rows), topN)
      ensures exists i :: 0 <= i < |sliced| && Get(rows[i], "project") == Some(p)
    {
      var k :| 0 <= k < |Select(HasProject, sliced)| && ProjectOf(Select(HasProject, sliced)[k]) == p;
      var row := Select(HasProject, sliced)[k];
      assert row in Select(HasProject, sliced);
      var i :| 0 <= i < |sliced| && sliced[i] == row;
      assert rows[i] == row;
    }
  }

  /**
   * No named row is skipped: each of the first `topN` rows that has a `project` gives its name,
   * at the position counted by the named rows before it.
   */
  lemma TopPackagesComplete(rows: seq<Dict<string, string>>, topN: int, i: nat)
    requires i < |SliceTo(rows, topN)| && HasProject(SliceTo(rows, topN)[i])
    ensures var packages := FetchTopPypiPackages(Some(rows), topN);
      var k := |Select(HasProject, SliceTo(rows, topN)[..i])|;
      k < |packages| && Get(SliceTo(rows, topN)[i], "project") == Some(packages[k])
  {
    var sliced := SliceTo(rows, topN);
    var before := sliced[..i];
    assert sliced == before + ([sliced[i]] + sliced[i + 1..]);
    SelectAppend(HasProject, before, [sliced[i]] + sliced[i + 1..]);
    assert Select(HasProject, [sliced[i]] + sliced[i + 1..])[0] == sliced[i];
    var named := Select(HasProject, sliced);
    assert named[|Select(HasProject, before)|] == sliced[i];
  }

  /** When every row names its project and `topN` is not negative, the first `topN` are all taken. */
  lemma TopPackagesAllNamed(rows: seq<Dict<string, string>>, topN: nat)
    requires forall i :: 0 <= i < |rows| ==> HasProject(rows[i])
    ensures |FetchTopPypiPackages(Some(rows), topN)| == if topN < |rows| then topN else |rows|
    ensures forall i :: 0 <= i < |FetchTopPypiPackages(Some(rows), topN)| ==>
      Get(rows[i], "project") == Some(FetchTopPypiPackages(Some(rows), topN)[i])
  {
    var sliced := SliceTo(rows, topN);
    SelectKeepsAll(HasProject, sliced);
  }

  // ---------------------------------------------------------------------------------------
  // _get_latest_pypi_tag

  /** A release's files, each a JSON object. */
  type ReleaseFiles = seq<Dict<string, string>>

  /** `get_upload_time`: the first file's `upload_time`, or None when there is none. */
  function UploadTime(files: ReleaseFiles): (t: Option<string>)
    ensures files == [] ==> t.None?
  {
    if files == [] then None else Get(files[0], "upload_time")
  }

  /** The releases that have an upload time, with that time, in the dictionary's order. */
  function Dated(releases: Dict<string, ReleaseFiles>): (dated: seq<(string, string)>)
    ensures |dated| <= |releases|
    ensures forall d :: d in dated ==> exists j :: (0 <= j < |releases| && releases[j].0 == d.0 &&
      UploadTime(releases[j].1) == Some(d.1))
  {
    if releases == [] then []
    else
      var rest := Dated(releases[1..]);
      assert forall d :: d in rest ==> exists j :: (0 <= j < |releases| && releases[j].0 == d.0 &&
        UploadTime(releases[j].1) == Some(d.1)) by {
        forall d | d in rest ensures exists j :: (0 <= j < |releases| && releases[j].0 == d.0 &&
          UploadTime(releases[j].1) == Some(d.1)) {
          var j :| 0 <= j < |releases[1..]| && releases[1..][j].0 == d.0 && UploadTime(releases[1..][j].1) == Some(d.1);
          assert releases[j + 1] == releases[1..][j];
        }
      }
      match UploadTime(releases[0].1)
      case Some(t) => [(releases[0].0, t)] + rest
      case None => rest
  }

  /** A release with an upload time is among the dated ones. */
  lemma {:induction false} DatedMember(releases: Dict<string, ReleaseFiles>, j: nat)
    requires j < |releases| && UploadTime(releases[j].1).Some?
    ensures (releases[j].0, UploadTime(releases[j].1).value) in Dated(releases)
  {
    if j > 0 {
      DatedMember(releases[1..], j - 1);
      assert releases[1..][j - 1] == releases[j];
    }
  }

  /** Python's `max` over the first `n` entries by upload time: a later entry wins only when strictly greater. */
  function MaxIndex(dated: seq<(string, string)>, n: nat): (i: nat)
    requires 1 <= n <= |dated|
    ensures i < n
  {
    if n == 1 then 0
    else
      var best := MaxIndex(dated, n - 1);
      if Less(dated[best].1, dated[n - 1].1) then n - 1 else best
  }

  /** MaxIndex picks an entry no other beats, and the first such. */
  lemma {:induction false} MaxIndexIsFirstMax(dated: seq<(string, string)>, n: nat)
    requires 1 <= n <= |dated|
    ensures forall j :: 0 <= j < n ==> LessEq(dated[j].1, dated[MaxIndex(dated, n)].1)
    ensures forall j :: 0 <= j < MaxIndex(dated, n) ==> Less(dated[j].1, dated[MaxIndex(dated, n)].1)
  {
    if n == 1 {
      LessIrreflexive(dated[0].1);
    } else {
      var best := MaxIndex(dated, n - 1);
      MaxIndexIsFirstMax(dated, n - 1);
      var last := dated[n - 1].1;
      if Less(dated[best].1, last) {
        forall j | 0 <= j < n - 1 ensures Less(dated[j].1, last) {
          LessTotal(dated[j].1, dated[best].1);
          if Less(dated[j].1, dated[best].1) {
            LessTransitive(dated[j].1, dated[best].1, last);
          }
        }
        forall j | 0 <= j < n ensures LessEq(dated[j].1, last) {
          if j < n - 1 {
            LessAsymmetric(dated[j].1, last);
          } else {
            LessIrreflexive(last);
          }
        }
      }
    }
  }

  /**
   * `_get_latest_pypi_tag`, given the JSON's `releases` (absent when it has none): the tag of the
   * release uploaded last, or the error the function raises.
   */
  function GetLatestPypiTag(releases: Option<Dict<string, ReleaseFiles>>): (r: Result<string>)
    ensures releases.None? ==> r == Err("ValueError: data does not contain releases")
    ensures releases.Some? ==> (r.Err? <==> Dated(releases.value) == [])
    ensures r.Err? ==> r.error in {"ValueError: data does not contain releases", "ValueError: release list is empty"}
  {
    match releases
    case None => Err("ValueError: data does not contain releases")
    case Some(rs) =>
      var dated := Dated(rs);
      if |dated| == 0 then Err("ValueError: release list is empty")
      else Ok(dated[MaxIndex(dated, |dated|)].0)
  }

  /**
   * The tag returned belongs to a release with an upload time no other release's time exceeds,
   * and every release listed before it was uploaded strictly earlier.
   */
  lemma LatestIsNewest(releases: Dict<string, ReleaseFiles>)
    requires GetLatestPypiTag(Some(releases)).Ok?
    ensures exists i :: (0 <= i < |Dated(releases)| && Dated(releases)[i].0 == GetLatestPypiTag(Some(releases)).value &&
      (forall j :: 0 <= j < |Dated(releases)| ==> LessEq(Dated(releases)[j].1, Dated(releases)[i].1)) &&
      (forall j :: 0 <= j < i ==> Less(Dated(releases)[j].1, Dated(releases)[i].1)))
  {
    var dated := Dated(releases);
    MaxIndexIsFirstMax(dated, |dated|);
  }

  /** No release with an upload time was uploaded after the one whose tag is returned. */
  lemma LatestBeatsEveryRelease(releases: Dict<string, ReleaseFiles>, j: nat)
    requires GetLatestPypiTag(Some(releases)).Ok?
    requires j < |releases| && UploadTime(releases[j].1).Some?
    ensures exists i :: (0 <= i < |Dated(releases)| &&
      Dated(releases)[i].0 == GetLatestPypiTag(Some(releases)).value &&
      LessEq(UploadTime(releases[j].1).value, Dated(releases)[i].1))
  {
    var dated := Dated(releases);
    var i := MaxIndex(dated, |dated|);
    MaxIndexIsFirstMax(dated, |dated|);
    DatedMember(releases, j);
    var entry := (releases[j].0, UploadTime(releases[j].1).value);
    var k :| 0 <= k < |dated| && dated[k] == entry;
    assert LessEq(dated[k].1, dated[i].1);
  }

  // ---------------------------------------------------------------------------------------
  // _match_pypi_git_tag: re.match("v*" + version, tag)

  /** A character of the version as a pattern: `.` matches anything but a newline. */
  predicate CharMatches(p: char, c: char) {
    if p == '.' then c != '\n' else c == p
  }

  /** The version, read as a pattern, matches the start of `s`. */
  predicate VersionAt(version: string, s: string) {
    |version| <= |s| && forall i :: 0 <= i < |version| ==> CharMatches(version[i], s[i])
  }

  /** `re.match("v*" + version, tag)`: after some leading `v`s the version matches. */
  predicate VersionMatch(version: string, tag: string)
    decreases |tag|
  {
    VersionAt(version, tag) || (tag != [] && tag[0] == 'v' && VersionMatch(version, tag[1..]))
  }

  function Vs(k: nat): (s: string)
    ensures |s| == k && forall i :: 0 <= i < k ==> s[i] == 'v'
  {
    if k == 0 then "" else "v" + Vs(k - 1)
  }

  /** `v…v` followed by the version matches, whatever comes after it. */
  lemma {:induction false} VersionMatchesPrefixed(version: string, k: nat, suffix: string)
    ensures VersionMatch(version, Vs(k) + version + suffix)
  {
    var tag := Vs(k) + version + suffix;
    if k == 0 {
      assert tag == version + suffix;
      assert VersionAt(version, tag);
    } else {
      VersionMatchesPrefixed(version, k - 1, suffix);
      assert tag[1..] == Vs(k - 1) + version + suffix;
    }
  }

  /** For a version without `.`, a match is leading `v`s followed by the version itself. */
  lemma {:induction false} VersionMatchShape(version: string, tag: string)
    requires '.' !in version && VersionMatch(version, tag)
    ensures exists k :: (0 <= k <= |tag| && tag[..k] == Vs(k) && StartsWith(tag[k..], version))
    decreases |tag|
  {
    if VersionAt(version, tag) {
      assert forall i :: 0 <= i < |version| ==> version[i] != '.' by {
        forall i | 0 <= i < |version| ensures version[i] != '.' { assert version[i] in version; }
      }
      assert tag[..0] == Vs(0) && tag[0..] == tag;
      assert tag[..|version|] == version;
    } else {
      VersionMatchShape(version, tag[1..]);
      var k :| 0 <= k <= |tag[1..]| && tag[1..][..k] == Vs(k) && StartsWith(tag[1..][k..], version);
      assert tag[..k + 1] == "v" + tag[1..][..k];
      assert tag[k + 1..] == tag[1..][k..];
    }
  }

  /**
   * `_match_pypi_git_tag`: the first tag the version matches, or the empty string when none
   * does.
   */
  method MatchPypiGitTag(version: string, gitTags: seq<string>) returns (tag: string)
    ensures (tag == "" && forall t :: t in gitTags ==> !VersionMatch(version, t)) ||
      exists i :: (0 <= i < |gitTags| && gitTags[i] == tag && VersionMatch(version, tag) &&
        forall j :: 0 <= j < i ==> !VersionMatch(version, gitTags[j]))
  {
    for i := 0 to |gitTags|
      invariant forall j :: 0 <= j < i ==> !VersionMatch(version, gitTags[j])
    {
      if VersionMatch(version, gitTags[i]) {
        return gitTags[i];
      }
    }
    return "";
  }

  // ---------------------------------------------------------------------------------------
  // _get_git_tags

  /** `s.split(sep)` for a separator of any non-zero length, scanning left to right. */
  function SplitOn(s: string, sep: string): (parts: seq<string>)
    requires sep != []
    ensures |parts| >= 1
    decreases |s|
  {
    if |s| < |sep| then [s]
    else if s[..|sep|] == sep then [""] + SplitOn(s[|sep|..], sep)
    else
      var rest := SplitOn(s[1..], sep);
      [[s[0]] + rest[0]] + rest[1..]
  }

  /** Text without the separator's first character is not split at all. */
  lemma {:induction false} SplitOnAbsent(s: string, sep: string)
    requires sep != [] && sep[0] !in s
    ensures SplitOn(s, sep) == [s]
    decreases |s|
  {
    if |s| >= |sep| {
      assert s[0] in s;
      assert s[..|sep|][0] == s[0];
      assert s[..|sep|] != sep;
      assert forall c :: c in s[1..] ==> c in s;
      SplitOnAbsent(s[1..], sep);
      assert [s[0]] + s[1..] == s;
    }
  }

  predicate IsDigit(c: char) {
    '0' <= c <= '9'
  }

  /** Where the physical line containing position `i` ends: the next newline, or the end. */
  function LineEnd(s: string, i: nat): (e: nat)
    requires i <= |s|
    ensures i <= e <= |s|
    ensures forall k :: i <= k < e ==> s[k] != '\n'
    ensures e < |s| ==> s[e] == '\n'
    decreases |s| - i
  {
    if i == |s| || s[i] == '\n' then i else LineEnd(s, i + 1)
  }

  /** The last digit in `s[lo..hi]`. */
  function LastDigit(s: string, lo: nat, hi: nat): (r: Option<nat>)
    requires lo <= hi <= |s|
    ensures r.Some? ==> (lo <= r.value < hi && IsDigit(s[r.value]) &&
      forall k :: r.value < k < hi ==> !IsDigit(s[k]))
    ensures r.None? ==> forall k :: lo <= k < hi ==> !IsDigit(s[k])
    decreases hi - lo
  {
    if hi == lo then None
    else if IsDigit(s[hi - 1]) then Some(hi - 1)
    else LastDigit(s, lo, hi - 1)
  }

  /** `tags/.*[0-9]+` can match at `p`: `tags/`, then a digit later on the same line. */
  predicate TagsMatchAt(s: string, p: nat) {
    p + 5 <= |s| && s[p..p + 5] == "tags/" && LastDigit(s, p + 5, LineEnd(s, p + 5)).Some?
  }

  /** The leftmost position from `p` on where the pattern matches. */
  function SearchTags(s: string, p: nat): (r: Option<nat>)
    requires p <= |s|
    ensures r.Some? ==> (p <= r.value && TagsMatchAt(s, r.value) &&
      forall q :: p <= q < r.value ==> !TagsMatchAt(s, q))
    ensures r.None? ==> forall q :: p <= q <= |s| ==> !TagsMatchAt(s, q)
    decreases |s| - p
  {
    if TagsMatchAt(s, p) then Some(p)
    else if p == |s| then None
    else SearchTags(s, p + 1)
  }

  /** A match starting with `tags/` splits on `/` into at least two pieces, the second being what follows up to the next slash. */
  lemma TagsSplit(rest: string)
    ensures |Split("tags/" + rest, '/')| >= 2
    ensures Split("tags/" + rest, '/')[1] == Split(rest, '/')[0]
  {
    assert "tags/" + rest == "tags" + ['/'] + rest;
    IndexOfAfter("tags", '/', rest);
    assert ("tags" + ['/'] + rest)[5..] == rest;
  }

  /**
   * One line's tag: `re.search(r"tags/.*[0-9]+", line)`, whose match runs from the leftmost
   * possible `tags/` to the last digit on that physical line, then `group(0).split("/")[1]`.
   */
  function TagSearch(line: string): (r: Option<string>)
    ensures r.Some? ==> '/' !in r.value
  {
    match SearchTags(line, 0)
    case None => None
    case Some(p) =>
      var end := LastDigit(line, p + 5, LineEnd(line, p + 5)).value + 1;
      var group := line[p..end];
      assert group == "tags/" + line[p + 5..end];
      TagsSplit(line[p + 5..end]);
      SplitNoSeparator(group, '/', 1);
      Some(Split(group, '/')[1])
  }

  /** The set of tags found on the given lines. */
  function FoundTags(lines: seq<string>): set<string> {
    if lines == [] then {}
    else FoundTags(lines[..|lines| - 1]) + (match TagSearch(lines[|lines| - 1])
      case Some(t) => {t}
      case None => {})
  }

  /** A tag is found exactly when some line yields it. */
  lemma {:induction false} FoundTagsMember(lines: seq<string>, t: string)
    ensures t in FoundTags(lines) <==> exists i :: 0 <= i < |lines| && TagSearch(lines[i]) == Some(t)
  {
    if t in FoundTags(lines) {
      FoundTagsSound(lines, t);
    }
    if exists i :: 0 <= i < |lines| && TagSearch(lines[i]) == Some(t) {
      var i :| 0 <= i < |lines| && TagSearch(lines[i]) == Some(t);
      FoundTagsComplete(lines, i);
    }
  }

  lemma {:induction false} FoundTagsSound(lines: seq<string>, t: string)
    requires t in FoundTags(lines)
    ensures exists i :: 0 <= i < |lines| && TagSearch(lines[i]) == Some(t)
  {
    var init := lines[..|lines| - 1];
    if t in FoundTags(init) {
      FoundTagsSound(init, t);
      var i :| 0 <= i < |init| && TagSearch(init[i]) == Some(t);
      assert lines[i] == init[i];
    } else {
      assert TagSearch(lines[|lines| - 1]) == Some(t);
    }
  }

  lemma {:induction false} FoundTagsComplete(lines: seq<string>, i: nat)
    requires i < |lines| && TagSearch(lines[i]).Some?
    ensures TagSearch(lines[i]).value in FoundTags(lines)
  {
    var init := lines[..|lines| - 1];
    if i < |init| {
      FoundTagsComplete(init, i);
      assert init[i] == lines[i];
    }
  }

  /** `sorted(tags)`: each tag once, in increasing order. */
  method SortTags(tags: set<string>) returns (sorted: seq<string>)
    ensures SortedBy(sorted, Structure.Self)
    ensures forall t :: multiset(sorted)[t] == if t in tags then 1 else 0
  {
    sorted := [];
    var remaining := tags;
    while remaining != {}
      invariant remaining <= tags
      invariant SortedBy(sorted, Structure.Self)
      invariant forall t :: multiset(sorted)[t] == if t in tags - remaining then 1 else 0
      decreases |remaining|
    {
      var x :| x in remaining;
      InsertSorted(x, sorted, Structure.Self);
      sorted := Insert(x, sorted, Structure.Self);
      remaining := remaining - {x};
    }
  }

  /** Collects the tags of the given lines and sorts them. */
  method SortedTags(lines: seq<string>) returns (tags: seq<string>)
    ensures SortedBy(tags, Structure.Self)
    ensures forall t :: multiset(tags)[t] == if t in FoundTags(lines) then 1 else 0
  {
    var found: set<string> := {};
    for i := 0 to |lines|
      invariant found == FoundTags(lines[..i])
    {
      assert lines[..i + 1][..i] == lines[..i];
      match TagSearch(lines[i])
      case Some(t) => found := found + {t};
      case None =>
    }
    assert lines[..|lines|] == lines;
    tags := SortTags(found);
  }

  /**
   * `_get_git_tags` as written, given the output of `git ls-remote --tags` (absent when the
   * command fails): the output is split on the two characters `\` and `n`, not on newlines.
   */
  method GetGitTags(output: Option<string>) returns (tags: seq<string>)
    ensures output.None? ==> tags == []
    ensures SortedBy(tags, Structure.Self)
    ensures output.Some? ==> forall t :: multiset(tags)[t] == if t in FoundTags(SplitOn(output.value, "\\n")) then 1 else 0
  {
    if output.None? {
      return [];
    }
    tags := SortedTags(SplitOn(output.value, "\\n"));
  }

  /** `_get_git_tags` splitting the output into its lines, one tag per line. */
  method GetGitTagsPerLine(output: Option<string>) returns (tags: seq<string>)
    ensures output.None? ==> tags == []
    ensures SortedBy(tags, Structure.Self)
    ensures output.Some? ==> forall t :: multiset(tags)[t] == if t in FoundTags(Split(output.value, '\n')) then 1 else 0
  {
    if output.None? {
      return [];
    }
    tags := SortedTags(Split(output.value, '\n'));
  }

  /** Real `git` output holds no backslash, so as written at most one tag is ever found. */
  lemma AsWrittenFindsOneTag(output: string)
    requires '\\' !in output
    ensures |FoundTags(SplitOn(output, "\\n"))| <= 1
  {
    SplitOnAbsent(output, "\\n");
    assert SplitOn(output, "\\n")[..0] == [];
  }

  /** A `refs/tags/<digit>` line, possibly followed by further lines, yields that digit as its tag. */
  lemma TagOfRefLine(d: char, rest: string)
    requires IsDigit(d) && (rest == "" || rest[0] == '\n')
    ensures TagSearch("refs/tags/" + [d] + rest) == Some([d])
  {
    var s := "refs/tags/" + [d] + rest;
    assert s[0] == 'r' && s[1] == 'e' && s[2] == 'f' && s[3] == 's' && s[4] == '/';
    forall q | 0 <= q < 5 ensures !TagsMatchAt(s, q) {
      assert s[q..q + 5][0] == s[q];
    }
    assert s[5..10] == "tags/";
    assert LineEnd(s, 11) == 11;
    assert LineEnd(s, 10) == 11;
    assert LastDigit(s, 10, 11) == Some(10);
    assert TagsMatchAt(s, 5);
    assert SearchTags(s, 5) == Some(5);
    assert SearchTags(s, 0) == Some(5);
    assert s[5..11] == "tags/" + [d];
    TagsSplit([d]);
    assert Split([d], '/') == [[d]];
  }

  /** As written, the two-line output `refs/tags/1` / `refs/tags/2` yields only the tag `1`. */
  lemma GitTagsFindingAsWritten()
    ensures FoundTags(SplitOn("refs/tags/1\nrefs/tags/2", "\\n")) == {"1"}
  {
    assert "refs/tags/1\nrefs/tags/2" == RefLine('1') + ['\n'] + RefLine('2');
    AsWrittenTwoRefLines('1', '2');
  }

  /** As written, two `refs/tags/<digit>` lines yield only the first digit. */
  lemma AsWrittenTwoRefLines(d1: char, d2: char)
    requires IsDigit(d1) && IsDigit(d2)
    ensures FoundTags(SplitOn(RefLine(d1) + ['\n'] + RefLine(d2), "\\n")) == {[d1]}
  {
    var output := RefLine(d1) + ['\n'] + RefLine(d2);
    assert output == "refs/tags/" + [d1] + ("\n" + RefLine(d2));
    assert ("\n" + RefLine(d2))[0] == '\n';
    assert '\\' !in output;
    SplitOnAbsent(output, "\\n");
    TagOfRefLine(d1, "\n" + RefLine(d2));
    assert [output][..0] == [];
  }

  /** Split into its lines, the same output yields both tags. */
  lemma GitTagsFindingPerLine()
    ensures FoundTags(Split("refs/tags/1\nrefs/tags/2", '\n')) == {"1", "2"}
  {
    assert "refs/tags/1\nrefs/tags/2" == RefLine('1') + ['\n'] + RefLine('2');
    TwoRefLines('1', '2');
  }

  /** `refs/tags/<d>` */
  function RefLine(d: char): string {
    "refs/tags/" + [d]
  }

  /** Two `refs/tags/<digit>` lines yield their two digits. */
  lemma TwoRefLines(d1: char, d2: char)
    requires IsDigit(d1) && IsDigit(d2)
    ensures FoundTags(Split(RefLine(d1) + ['\n'] + RefLine(d2), '\n')) == {[d1], [d2]}
  {
    var l1, l2 := RefLine(d1), RefLine(d2);
    assert '\n' !in l1 && '\n' !in l2;
    SplitTwo(l1, l2, '\n');
    assert l1 == "refs/tags/" + [d1] + "";
    assert l2 == "refs/tags/" + [d2] + "";
    TagOfRefLine(d1, "");
    TagOfRefLine(d2, "");
    FoundTagsTwo(l1, l2);
  }

  /** The tags of two lines are the tags of each. */
  lemma FoundTagsTwo(l1: string, l2: string)
    requires TagSearch(l1).Some? && TagSearch(l2).Some?
    ensures FoundTags([l1, l2]) == {TagSearch(l1).value, TagSearch(l2).value}
  {
    var lines := [l1, l2];
    assert lines[..|lines| - 1] == [l1] && lines[|lines| - 1] == l2;
    assert FoundTags([l1]) == {TagSearch(l1).value} by {
      assert [l1][..0] == [];
    }
  }
}
