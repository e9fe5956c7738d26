/**
 * What both job-search variants share: the search endpoint's query
 * parameters, the outcome of the HTTP call, and the seven fields read from
 * every `wantedInfo` element.
 */
module JobFeed {
  import opened Wrappers
  import opened XmlTree

  /** A query parameter value: both programs pass strings and Python ints. */
  datatype ParamValue = Text(s: string) | Number(n: int)

  /** The `params` dictionary handed to the HTTP layer. */
  type Query = map<string, ParamValue>

  /** The parameter dictionary built from the credential, the start page and the page size. */
  function BuildQuery(authKey: string, startPage: int, display: int): (q: Query)
    ensures q.Keys == {"authKey", "callTp", "returnType", "startPage", "display"}
    ensures q["callTp"] == Text("L") && q["returnType"] == Text("XML")
  {
    map["authKey" := Text(authKey), "callTp" := Text("L"), "returnType" := Text("XML"),
        "startPage" := Number(startPage), "display" := Number(display)]
  }

  /** Reads credential, start page and page size back out of a query, if it has the endpoint's shape. */
  function ParseQuery(q: Query): Option<(string, int, int)>
  {
    if q.Keys == {"authKey", "callTp", "returnType", "startPage", "display"} &&
       q["callTp"] == Text("L") && q["returnType"] == Text("XML") &&
       q["authKey"].Text? && q["startPage"].Number? && q["display"].Number?
    then Some((q["authKey"].s, q["startPage"].n, q["display"].n))
    else None
  }

  /** The caller's values reach the endpoint unchanged. */
  lemma QueryRoundTrip(authKey: string, startPage: int, display: int)
    ensures ParseQuery(BuildQuery(authKey, startPage, display)) == Some((authKey, startPage, display))
  {
  }

  /** Every query of the endpoint's shape is the one built from the values it carries. */
  lemma QueryOnlyFromBuild(q: Query)
    requires ParseQuery(q).Some?
    ensures var (k, p, d) := ParseQuery(q).value; q == BuildQuery(k, p, d)
  {
    var (k, p, d) := ParseQuery(q).value;
    var b := BuildQuery(k, p, d);
    assert forall key :: key in q ==> key in b && q[key] == b[key];
  }

  /** The start page and page size the sidebar's number inputs allow. */
  predicate WidgetBounds(startPage: int, display: int)
  {
    startPage >= 1 && 1 <= display <= 100
  }

  /**
   * What the HTTP layer reports: the request failed outright (no response), or a
   * response arrived with a status, the text an error for that status would carry,
   * and the parsed XML body.
   */
  datatype HttpOutcome =
    | RequestFailed(detail: string)
    | Answered(status: int, failure: string, body: Element)

  /** The seven columns of a job row, in the order both programs build the row dictionary. */
  datatype Field = Company | Title | Salary | Region | EmploymentType | Experience | Education

  const Fields: seq<Field> := [Company, Title, Salary, Region, EmploymentType, Experience, Education]

  /** Where a column stands in `Fields`, the order in which a row is built. */
  function Position(f: Field): (k: nat)
    ensures k < |Fields| && Fields[k] == f
  {
    match f
    case Company => 0
    case Title => 1
    case Salary => 2
    case Region => 3
    case EmploymentType => 4
    case Experience => 5
    case Education => 6
  }

  lemma PositionInverse(k: nat)
    requires k < |Fields|
    ensures Position(Fields[k]) == k
  {
  }

  /** The relative path each column is read from inside a `wantedInfo` element. */
  function PathOf(f: Field): seq<string>
  {
    match f
    case Company => ["corpInfo", "corpNm"]
    case Title => ["wantedTitle"]
    case Salary => ["salTpNm"]
    case Region => ["workRegion"]
    case EmploymentType => ["empTpNm"]
    case Experience => ["enterTpNm"]
    case Education => ["eduNm"]
  }

  /** The column header (dictionary key) of each field. */
  function Header(f: Field): string
  {
    match f
    case Company => "회사"
    case Title => "제목"
    case Salary => "급여"
    case Region => "지역"
    case EmploymentType => "고용형태"
    case Experience => "경력"
    case Education => "학력"
  }

  /**
   * The seven headers are distinct dictionary keys, so every row has all seven
   * columns and `df[Header(f)]` selects the column of `f` and no other.
   */
  lemma HeadersDistinct()
    ensures forall f, g :: Header(f) == Header(g) ==> f == g
  {
  }

  /** One table row: a value per column. */
  datatype Row<T> = Row(company: T, title: T, salary: T, region: T, employmentType: T,
                        experience: T, education: T)
  {
    function Get(f: Field): T
    {
      match f
      case Company => company
      case Title => title
      case Salary => salary
      case Region => region
      case EmploymentType => employmentType
      case Experience => experience
      case Education => education
    }
  }

  /** `df[Header(f)]`: the column of field `f`, top to bottom. */
  function Column<T>(rows: seq<Row<T>>, f: Field): (c: seq<T>)
    ensures |c| == |rows|
    ensures forall i :: 0 <= i < |rows| ==> c[i] == rows[i].Get(f)
  {
    seq(|rows|, i requires 0 <= i < |rows| => rows[i].Get(f))
  }

  /** The feed's job elements: `root.findall('.//wantedInfo')`. */
  function Items(root: Element): seq<Element>
  {
    FindAll(root, "wantedInfo")
  }
}
