/**
 * The defensive job-search page (app.py): `get_job_listings` classifies the
 * HTTP outcome and the parsed feed into a transport failure, a remote error,
 * an empty result or a table, reading every field with `findtext(.., "")`;
 * the page then charts the region and employment-type counts of the table.
 */
module App {
  import opened Wrappers
  import opened XmlTree
  import opened JobFeed
  import Tally

  const RequestFailedPrefix := "API 요청 실패: "
  const RemoteErrorPrefix := "API 에러: "
  const NoDataMessage := "API에서 반환된 채용 정보가 없습니다."
  const SuccessMessage := "성공"
  const FailurePrefix := "검색 결과가 없습니다. 원인: "

  /** The four ways a search can end. */
  datatype Outcome = TransportFailure | RemoteError | NoData | Success

  /** The statuses `raise_for_status` turns into an exception: client and server errors. */
  predicate IsHttpError(status: int)
  {
    400 <= status < 600
  }

  /** Reference classification of an HTTP outcome, checked in the order app.py checks them. */
  ghost function Classify(response: HttpOutcome): Outcome
  {
    match response
    case RequestFailed(_) => TransportFailure
    case Answered(status, _, body) =>
      if IsHttpError(status) then TransportFailure
      else if exists d :: Below(d, body) && d.tag == "error" then RemoteError
      else if exists d :: Below(d, body) && d.tag == "wantedInfo" then Success
      else NoData
  }

  /** The text of one column of a job element: `item.findtext(path, default="")`. */
  function FieldText(item: Element, f: Field): string
  {
    FindText(item, PathOf(f), "")
  }

  /** The row built from one `wantedInfo` element. */
  function Extract(item: Element): (r: Row<string>)
    ensures forall f :: r.Get(f) == FieldText(item, f)
  {
    Row(FieldText(item, Company), FieldText(item, Title), FieldText(item, Salary),
        FieldText(item, Region), FieldText(item, EmploymentType), FieldText(item, Experience),
        FieldText(item, Education))
  }

  predicate HasPrefix(s: string, p: string)
  {
    |p| <= |s| && s[..|p|] == p
  }

  /** What a caller can tell from the returned pair: which of the four outcomes occurred. */
  function Decode(table: Option<seq<Row<string>>>, message: string): Option<Outcome>
  {
    if table.Some? then (if message == SuccessMessage && table.value != [] then Some(Success) else None)
    else if HasPrefix(message, RequestFailedPrefix) then Some(TransportFailure)
    else if HasPrefix(message, RemoteErrorPrefix) then Some(RemoteError)
    else if message == NoDataMessage then Some(NoData)
    else None
  }

  /**
   * `get_job_listings`: builds the query, asks the HTTP layer, and turns the
   * answer into an optional table and a message.
   */
  method GetJobListings(authKey: string, startPage: int, display: int, fetch: Query -> HttpOutcome)
    returns (table: Option<seq<Row<string>>>, message: string)
    ensures var response := fetch(BuildQuery(authKey, startPage, display));
      && Decode(table, message) == Some(Classify(response))
      && (table.Some? <==> Classify(response) == Success)
      && (response.RequestFailed? ==> message == RequestFailedPrefix + response.detail)
      && (response.Answered? && IsHttpError(response.status) ==>
            message == RequestFailedPrefix + response.failure)
      && (response.Answered? && !IsHttpError(response.status) &&
          FindFirst(response.body, "error").Some? ==>
            message == RemoteErrorPrefix + Show(FindFirst(response.body, "error").value.text))
      && (Classify(response) == NoData ==> message == NoDataMessage)
      && (table.Some? ==>
            var items := Items(response.body);
            && message == SuccessMessage
            && |table.value| == |items| >= 1
            && forall i :: 0 <= i < |items| ==> table.value[i] == Extract(items[i]))
  {
    var response := fetch(BuildQuery(authKey, startPage, display));
    if response.RequestFailed? {
      table, message := None, RequestFailedPrefix + response.detail;
      RequestFailedDecodes(response.detail);
      return;
    }
    if IsHttpError(response.status) {
      table, message := None, RequestFailedPrefix + response.failure;
      RequestFailedDecodes(response.failure);
      return;
    }
    var root := response.body;
    FindFirstIsFirst(root, "error");
    var errorElem := FindFirst(root, "error");
    if errorElem.Some? {
      table, message := None, RemoteErrorPrefix + Show(errorElem.value.text);
      FindAllExact(root, "error", errorElem.value);
      RemoteErrorDecodes(Show(errorElem.value.text));
      return;
    }
    SuccessIff(response);
    var jobData := ExtractAll(Items(root));
    if jobData == [] {
      table, message := None, NoDataMessage;
      NoDataDecodes();
      return;
    }
    table, message := Some(jobData), SuccessMessage;
  }

  /** The loop over the `wantedInfo` elements: one row per element, in order. */
  method ExtractAll(items: seq<Element>) returns (jobData: seq<Row<string>>)
    ensures |jobData| == |items|
    ensures forall i :: 0 <= i < |items| ==> jobData[i] == Extract(items[i])
  {
    jobData := [];
    for i := 0 to |items|
      invariant |jobData| == i
      invariant forall j :: 0 <= j < i ==> jobData[j] == Extract(items[j])
    {
      jobData := jobData + [Extract(items[i])];
    }
  }

  lemma RequestFailedDecodes(detail: string)
    ensures Decode(None, RequestFailedPrefix + detail) == Some(TransportFailure)
  {
    assert (RequestFailedPrefix + detail)[..|RequestFailedPrefix|] == RequestFailedPrefix;
  }

  lemma RemoteErrorDecodes(text: string)
    ensures Decode(None, RemoteErrorPrefix + text) == Some(RemoteError)
  {
    var m := RemoteErrorPrefix + text;
    assert m[4] == '에' != RequestFailedPrefix[4];
    assert m[..|RemoteErrorPrefix|] == RemoteErrorPrefix;
  }

  lemma NoDataDecodes()
    ensures Decode(None, NoDataMessage) == Some(NoData)
  {
    assert NoDataMessage[3] != RequestFailedPrefix[3];
    assert NoDataMessage[3] != RemoteErrorPrefix[3];
  }

  /**
   * A column is "" exactly when its path leads nowhere or the first element it
   * reaches has no (or empty) text; any other value is the text of an element
   * the path reaches. Reading a column never fails.
   */
  lemma FieldTextMeaning(item: Element, f: Field)
    ensures (forall x :: !Reaches(item, PathOf(f), x)) ==> FieldText(item, f) == ""
    ensures FieldText(item, f) == "" <==>
      Find(item, PathOf(f)).None? || Find(item, PathOf(f)).value.text in {None, Some("")}
    ensures FieldText(item, f) != "" ==>
      exists x :: Reaches(item, PathOf(f), x) && x.text == Some(FieldText(item, f))
  {
    FindPresent(item, PathOf(f));
  }

  /** What the page shows after a search (app.py, the branches on `df is not None`). */
  datatype View =
    | Dashboard(rows: seq<Row<string>>, regionCounts: map<string, nat>, employmentCounts: map<string, nat>)
    | ErrorView(message: string)

  function Render(table: Option<seq<Row<string>>>, message: string): View
  {
    if table.Some? then
      Dashboard(table.value, Tally.Count(Column(table.value, Region)),
                Tally.Count(Column(table.value, EmploymentType)))
    else ErrorView(FailurePrefix + message)
  }

  /**
   * `value_counts` on a column of strings counts every row: its keys are the
   * distinct values of the column, each count is positive, and the counts add
   * up to the number of rows.
   */
  lemma ColumnCounts(rows: seq<Row<string>>, f: Field)
    ensures var m := Tally.Count(Column(rows, f));
      && m.Keys == (set i | 0 <= i < |rows| :: rows[i].Get(f))
      && (forall k :: k in m ==> m[k] > 0)
      && Tally.Total(m) == |rows|
  {
    var col := Column(rows, f);
    Tally.CountTotal(col);
    forall x | x in col ensures x in (set i | 0 <= i < |rows| :: rows[i].Get(f)) {
      var i :| 0 <= i < |col| && col[i] == x;
    }
  }

  /** The dashboard holds the rows and the region and employment-type counts over all of them. */
  lemma DashboardCounts(rows: seq<Row<string>>, message: string)
    ensures var v := Render(Some(rows), message);
      && v.Dashboard? && v.rows == rows
      && v.regionCounts.Keys == (set i | 0 <= i < |rows| :: rows[i].Get(Region))
      && v.employmentCounts.Keys == (set i | 0 <= i < |rows| :: rows[i].Get(EmploymentType))
      && (forall k :: k in v.regionCounts ==> v.regionCounts[k] > 0)
      && (forall k :: k in v.employmentCounts ==> v.employmentCounts[k] > 0)
      && Tally.Total(v.regionCounts) == |rows|
      && Tally.Total(v.employmentCounts) == |rows|
  {
    var v := Render(Some(rows), message);
    assert v.regionCounts == Tally.Count(Column(rows, Region));
    assert v.employmentCounts == Tally.Count(Column(rows, EmploymentType));
    ColumnCounts(rows, Region);
    ColumnCounts(rows, EmploymentType);
  }

  /**
   * A search succeeds exactly when the answer is not an HTTP error, no element
   * below the root is an `error` element, and there is a job element.
   */
  lemma SuccessIff(response: HttpOutcome)
    ensures Classify(response) == Success <==>
      && response.Answered? && !IsHttpError(response.status)
      && (forall d :: Below(d, response.body) ==> d.tag != "error")
      && Items(response.body) != []
  {
    if response.Answered? {
      var body := response.body;
      if Items(body) != [] {
        FindAllExact(body, "wantedInfo", Items(body)[0]);
      } else {
        forall d | Below(d, body) ensures d.tag != "wantedInfo" {
          FindAllExact(body, "wantedInfo", d);
        }
      }
    }
  }

  /** A remote error is reported with the text of the first `error` element. */
  lemma RemoteErrorFound(response: HttpOutcome)
    ensures Classify(response) == RemoteError ==>
      response.Answered? && FindFirst(response.body, "error").Some?
  {
    if Classify(response) == RemoteError {
      FindFirstIsFirst(response.body, "error");
      var d :| Below(d, response.body) && d.tag == "error";
      FindAllExact(response.body, "error", d);
    }
  }

  /**
   * One press of the search button: no request without a press. With one, the
   * page shows a dashboard exactly when the search succeeded: the table of
   * every job element and the region and employment-type counts over all of
   * its rows. Otherwise it shows the failure message followed by the cause
   * that `get_job_listings` reported.
   */
  method SearchPage(pressed: bool, authKey: string, startPage: int, display: int,
                    fetch: Query -> HttpOutcome)
    returns (view: Option<View>)
    requires WidgetBounds(startPage, display)
    ensures !pressed ==> view == None
    ensures pressed ==>
      var response := fetch(BuildQuery(authKey, startPage, display));
      && view.Some?
      && (view.value.Dashboard? <==> Classify(response) == Success)
      && (response.RequestFailed? ==>
            view.value == ErrorView(FailurePrefix + (RequestFailedPrefix + response.detail)))
      && (response.Answered? && IsHttpError(response.status) ==>
            view.value == ErrorView(FailurePrefix + (RequestFailedPrefix + response.failure)))
      && (Classify(response) == RemoteError ==>
            && FindFirst(response.body, "error").Some?
            && view.value == ErrorView(FailurePrefix + (RemoteErrorPrefix +
                                       Show(FindFirst(response.body, "error").value.text))))
      && (Classify(response) == NoData ==> view.value == ErrorView(FailurePrefix + NoDataMessage))
      && (view.value.Dashboard? ==>
            var rows, items := view.value.rows, Items(response.body);
            && |rows| == |items| >= 1
            && (forall i :: 0 <= i < |items| ==> rows[i] == Extract(items[i]))
            && view.value.regionCounts == Tally.Count(Column(rows, Region))
            && view.value.employmentCounts == Tally.Count(Column(rows, EmploymentType))
            && view.value.regionCounts.Keys == (set i | 0 <= i < |rows| :: rows[i].Get(Region))
            && view.value.employmentCounts.Keys == (set i | 0 <= i < |rows| :: rows[i].Get(EmploymentType))
            && Tally.Total(view.value.regionCounts) == |rows|
            && Tally.Total(view.value.employmentCounts) == |rows|)
  {
    if !pressed {
      return None;
    }
    var table, message := GetJobListings(authKey, startPage, display, fetch);
    view := Some(Render(table, message));
    if table.Some? {
      DashboardCounts(table.value, message);
    } else {
      RemoteErrorFound(fetch(BuildQuery(authKey, startPage, display)));
    }
  }
}
