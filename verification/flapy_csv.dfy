/**
 * Reading the project list: one FlaPy project per CSV row, with optional text fields and
 * list- and dict-valued fields written in Python literal syntax.
 *
 * A row is the column-to-cell dictionary the CSV reader yields. Python's `literal_eval` is a
 * parameter (`eval`): its `Err` stands for the ValueError or SyntaxError the source catches.
 */
module FlapyCsv {
  import opened Common
  import opened Text
  import opened PyDict

  /** The values `literal_eval` can produce, as far as the guards below look at them. */
  datatype PyLiteral =
    | PyList(items: seq<PyLiteral>)
    | PyDict(entries: seq<(PyLiteral, PyLiteral)>)
    | PyStr(s: string)
    | PyInt(i: int)
    | PyOther

  /** A project as the CSV describes it (the numeric columns are not part of this model). */
  datatype FlaPyProject = FlaPyProject(
    projectName: string,
    githubUrl: string,
    matchingGithubTag: Option<string>,
    pypiLatestTag: Option<string>,
    funcsToTrace: Option<string>,
    testsToRun: Option<string>,
    pypiFetchStatus: Option<string>,
    pypiClassifiers: seq<PyLiteral>,
    pypiProjectUrls: seq<(PyLiteral, PyLiteral)>,
    gitTags: seq<PyLiteral>)

  type Row = Dict<string, string>

  /** `parse_optional_field`: a blank cell is absent; any other cell is kept exactly, unstripped. */
  function ParseOptionalField(field: string): (r: Option<string>)
    ensures r.None? <==> forall i :: 0 <= i < |field| ==> IsSpace(field[i])
    ensures r.Some? ==> r.value == field
  {
    if HasNonSpace(field) then Some(field) else None
  }

  /** `parse_list_field`: only a bracketed cell that evaluates to a list yields its items. */
  function ParseListField(field: string, eval: string -> Result<PyLiteral>): (r: seq<PyLiteral>)
    ensures r != [] ==> field != [] && StartsWith(field, "[") && EndsWith(field, "]")
    ensures r != [] ==> eval(field) == Ok(PyList(r))
    ensures (field != [] && StartsWith(field, "[") && EndsWith(field, "]") &&
             eval(field).Ok? && eval(field).value.PyList?) ==> r == eval(field).value.items
  {
    if field != [] && StartsWith(field, "[") && EndsWith(field, "]") then
      match eval(field)
      case Ok(PyList(items)) => items
      case _ => []
    else []
  }

  /** `parse_dict_field`: only a braced cell that evaluates to a dict yields its entries. */
  function ParseDictField(field: string, eval: string -> Result<PyLiteral>): (r: seq<(PyLiteral, PyLiteral)>)
    ensures r != [] ==> field != [] && StartsWith(field, "{") && EndsWith(field, "}")
    ensures r != [] ==> eval(field) == Ok(PyDict(r))
    ensures (field != [] && StartsWith(field, "{") && EndsWith(field, "}") &&
             eval(field).Ok? && eval(field).value.PyDict?) ==> r == eval(field).value.entries
  {
    if field != [] && StartsWith(field, "{") && EndsWith(field, "}") then
      match eval(field)
      case Ok(PyDict(entries)) => entries
      case _ => []
    else []
  }

  /** `row[column]`, which raises KeyError for a column the header does not have. */
  function Cell(row: Row, column: string): (r: Result<string>)
    ensures r.Ok? <==> Get(row, column).Some?
    ensures r.Ok? ==> r.value == Get(row, column).value
    ensures r.Err? ==> r.error == "KeyError: " + column
  {
    match Get(row, column)
    case Some(v) => Ok(v)
    case None => Err("KeyError: " + column)
  }

  /** The columns a row is read from, in the order the source reads them. */
  const ProjectNameColumn := "Project_Name"
  const GithubUrlColumn := "Github_URL"
  const MatchingTagColumn := "matching_github_tag"
  const LatestTagColumn := "PYPI_latest_tag"
  const FuncsColumn := "funcs_to_trace"
  const TestsColumn := "tests_to_run"
  const FetchStatusColumn := "pypi_fetch_status"
  const ResponseCodeColumn := "pypi_http_response_code"
  const ClassifiersColumn := "PYPI_classifiers"
  const ProjectUrlsColumn := "PYPI_project_urls"
  const UrlStatusColumn := "github_url_status"
  const GitTagsColumn := "git_tags"
  /** The columns read up to and including the response code, whose parse can raise. */
  const LeadColumns: seq<string> := [
    ProjectNameColumn, GithubUrlColumn, MatchingTagColumn, LatestTagColumn, FuncsColumn, TestsColumn,
    FetchStatusColumn, ResponseCodeColumn]
  /** The columns read after the response code. */
  const TrailColumns: seq<string> := [ClassifiersColumn, ProjectUrlsColumn, UrlStatusColumn, GitTagsColumn]
  const Columns: seq<string> := LeadColumns + TrailColumns

  /** The row has a cell for every column the project is read from. */
  predicate HasColumns(row: Row) {
    forall k :: 0 <= k < |Columns| ==> Get(row, Columns[k]).Some?
  }

  /** The text of a cell the row is known to have. */
  function CellText(row: Row, column: string): string
    requires Get(row, column).Some?
  {
    Get(row, column).value
  }

  /** What `int(float(field))` raises for an infinite float; `parse_int_field` does not catch it. */
  const OverflowMessage := "OverflowError: cannot convert float infinity to integer"

  /**
   * `parse_int_field` raises on the response code: every column up to it was read, and the
   * cell is one `float` reads as infinite (`inf`, `-Infinity`, `1e999`, ...), which `infinite`
   * decides.
   */
  predicate Overflows(row: Row, infinite: string -> bool) {
    (forall k :: 0 <= k < |LeadColumns| ==> Get(row, LeadColumns[k]).Some?) &&
    Get(row, ResponseCodeColumn).Some? && infinite(CellText(row, ResponseCodeColumn))
  }

  /** Reading some columns succeeds exactly when the row has them all, and gives their cells. */
  lemma RowCells(row: Row, columns: seq<string>)
    ensures AllOk(column => Cell(row, column), columns).Ok? <==>
      forall k :: 0 <= k < |columns| ==> Get(row, columns[k]).Some?
    ensures AllOk(column => Cell(row, column), columns).Ok? ==>
      forall k :: 0 <= k < |columns| ==>
        Get(row, columns[k]).Some? && AllOk(column => Cell(row, column), columns).value[k] == CellText(row, columns[k])
  {
    var f := column => Cell(row, column);
    assert forall k :: 0 <= k < |columns| ==> (f(columns[k]).Ok? <==> Get(row, columns[k]).Some?);
  }

  /** Column `k` is the first one the row lacks. */
  predicate FirstMissing(row: Row, k: int) {
    0 <= k < |Columns| && Get(row, Columns[k]).None? &&
    forall j :: 0 <= j < k ==> Get(row, Columns[j]).Some?
  }

  /** The row has every column exactly when it has the leading and the trailing ones. */
  lemma HasColumnsSplit(row: Row)
    ensures HasColumns(row) <==>
      (forall k :: 0 <= k < |LeadColumns| ==> Get(row, LeadColumns[k]).Some?) &&
      (forall k :: 0 <= k < |TrailColumns| ==> Get(row, TrailColumns[k]).Some?)
  {
    assert forall k :: 0 <= k < |LeadColumns| ==> Columns[k] == LeadColumns[k];
    assert forall k :: 0 <= k < |TrailColumns| ==> Columns[|LeadColumns| + k] == TrailColumns[k];
    if !HasColumns(row) {
      var k :| 0 <= k < |Columns| && Get(row, Columns[k]).None?;
      if k >= |LeadColumns| {
        assert Columns[k] == TrailColumns[k - |LeadColumns|];
      }
    }
  }

  /** Reading the leading columns fails with the KeyError of the row's first missing column. */
  lemma LeadKeyError(row: Row)
    ensures AllOk(column => Cell(row, column), LeadColumns).Err? ==>
      exists k :: FirstMissing(row, k) && AllOk(column => Cell(row, column), LeadColumns).error == "KeyError: " + Columns[k]
  {
    var f := column => Cell(row, column);
    AllOkFirstError(f, LeadColumns);
    if AllOk(f, LeadColumns).Err? {
      var k :| 0 <= k < |LeadColumns| && f(LeadColumns[k]).Err? &&
        (forall j :: 0 <= j < k ==> f(LeadColumns[j]).Ok?) && AllOk(f, LeadColumns).error == f(LeadColumns[k]).error;
      assert forall j :: 0 <= j < |LeadColumns| ==> Columns[j] == LeadColumns[j];
      assert FirstMissing(row, k);
    }
  }

  /**
   * With every leading column read, reading the trailing ones fails with the KeyError of the
   * row's first missing column.
   */
  lemma TrailKeyError(row: Row)
    ensures AllOk(column => Cell(row, column), LeadColumns).Ok? && AllOk(column => Cell(row, column), TrailColumns).Err? ==>
      exists k :: FirstMissing(row, k) && AllOk(column => Cell(row, column), TrailColumns).error == "KeyError: " + Columns[k]
  {
    var f := column => Cell(row, column);
    RowCells(row, LeadColumns);
    AllOkFirstError(f, TrailColumns);
    if AllOk(f, LeadColumns).Ok? && AllOk(f, TrailColumns).Err? {
      var k :| 0 <= k < |TrailColumns| && f(TrailColumns[k]).Err? &&
        (forall j :: 0 <= j < k ==> f(TrailColumns[j]).Ok?) && AllOk(f, TrailColumns).error == f(TrailColumns[k]).error;
      var n := |LeadColumns| + k;
      assert Columns[n] == TrailColumns[k];
      forall j | 0 <= j < n ensures Get(row, Columns[j]).Some? {
        if j < |LeadColumns| {
          assert Columns[j] == LeadColumns[j];
        } else {
          assert Columns[j] == TrailColumns[j - |LeadColumns|];
        }
      }
      assert FirstMissing(row, n);
    }
  }

  /**
   * The project one row describes, reading every column in the order the source does (the
   * two numeric columns are read but not kept). It exists exactly when every column is there
   * and the response code does not overflow; each field is read from its own column. Otherwise
   * the error is the OverflowError when every column up to the response code was read and it
   * overflows, and else the KeyError of the first missing column.
   */
  function ProjectFromRow(row: Row, eval: string -> Result<PyLiteral>, infinite: string -> bool): (r: Result<FlaPyProject>)
    ensures r.Ok? <==> HasColumns(row) && !Overflows(row, infinite)
    ensures r.Ok? ==> Get(row, ProjectNameColumn).Some? && r.value.projectName == CellText(row, ProjectNameColumn)
    ensures r.Ok? ==> Get(row, GithubUrlColumn).Some? && r.value.githubUrl == CellText(row, GithubUrlColumn)
    ensures r.Ok? ==> Get(row, MatchingTagColumn).Some? && r.value.matchingGithubTag == ParseOptionalField(CellText(row, MatchingTagColumn))
    ensures r.Ok? ==> Get(row, LatestTagColumn).Some? && r.value.pypiLatestTag == ParseOptionalField(CellText(row, LatestTagColumn))
    ensures r.Ok? ==> Get(row, FuncsColumn).Some? && r.value.funcsToTrace == ParseOptionalField(CellText(row, FuncsColumn))
    ensures r.Ok? ==> Get(row, TestsColumn).Some? && r.value.testsToRun == ParseOptionalField(CellText(row, TestsColumn))
    ensures r.Ok? ==> Get(row, FetchStatusColumn).Some? && r.value.pypiFetchStatus == ParseOptionalField(CellText(row, FetchStatusColumn))
    ensures r.Ok? ==> Get(row, ClassifiersColumn).Some? && r.value.pypiClassifiers == ParseListField(CellText(row, ClassifiersColumn), eval)
    ensures r.Ok? ==> Get(row, ProjectUrlsColumn).Some? && r.value.pypiProjectUrls == ParseDictField(CellText(row, ProjectUrlsColumn), eval)
    ensures r.Ok? ==> Get(row, GitTagsColumn).Some? && r.value.gitTags == ParseListField(CellText(row, GitTagsColumn), eval)
    ensures Overflows(row, infinite) ==> r == Err(OverflowMessage)
    ensures r.Err? && !Overflows(row, infinite) ==> exists k :: FirstMissing(row, k) && r.error == "KeyError: " + Columns[k]
  {
    var leadCells := AllOk(column => Cell(row, column), LeadColumns);
    if leadCells.Err? then
      LeadKeyError(row);
      HasColumnsSplit(row);
      Err(leadCells.error)
    else
      RowCells(row, LeadColumns);
      var lead := leadCells.value;
      if infinite(lead[7]) then Err(OverflowMessage)
      else
        var trailCells := AllOk(column => Cell(row, column), TrailColumns);
        if trailCells.Err? then
          TrailKeyError(row);
          HasColumnsSplit(row);
          Err(trailCells.error)
        else
          RowCells(row, TrailColumns);
          HasColumnsSplit(row);
          var trail := trailCells.value;
          Ok(FlaPyProject(
            lead[0], lead[1],
            ParseOptionalField(lead[2]), ParseOptionalField(lead[3]), ParseOptionalField(lead[4]),
            ParseOptionalField(lead[5]), ParseOptionalField(lead[6]),
            ParseListField(trail[0], eval), ParseDictField(trail[1], eval), ParseListField(trail[3], eval)))
  }

  /**
   * `parse_csv`: the projects are read exactly when every row has every column and no
   * response code overflows, and then there is one project per row, in file order; the first
   * row that fails stops the read.
   */
  method ParseCsv(rows: seq<Row>, eval: string -> Result<PyLiteral>, infinite: string -> bool)
    returns (r: Result<seq<FlaPyProject>>)
    ensures r == AllOk(row => ProjectFromRow(row, eval, infinite), rows)
    ensures r.Ok? <==> forall i :: 0 <= i < |rows| ==> HasColumns(rows[i]) && !Overflows(rows[i], infinite)
    ensures r.Ok? ==> |r.value| == |rows|
    ensures r.Ok? ==> forall i :: 0 <= i < |rows| ==> ProjectFromRow(rows[i], eval, infinite) == Ok(r.value[i])
  {
    r := ParseRows(rows, row => ProjectFromRow(row, eval, infinite));
  }

  /** The row loop of `parse_csv`, for any way of turning a row into a project. */
  method ParseRows(rows: seq<Row>, parse: Row -> Result<FlaPyProject>) returns (r: Result<seq<FlaPyProject>>)
    ensures r == AllOk(parse, rows)
  {
    var projects: seq<FlaPyProject> := [];
    for i := 0 to |rows|
      invariant AllOk(parse, rows[..i]) == Ok(projects)
    {
      AllOkSnoc(parse, rows[..i], rows[i]);
      assert rows[..i + 1] == rows[..i] + [rows[i]];
      var project := parse(rows[i]);
      if project.Err? {
        r := Err(project.error);
        AllOkPrefixErr(parse, rows, i + 1);
        return;
      }
      projects := projects + [project.value];
    }
    assert rows[..|rows|] == rows;
    r := Ok(projects);
  }
}
