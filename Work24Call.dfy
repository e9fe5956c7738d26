/**
 * The non-defensive job-search page (work24_call.py): the credential is typed
 * into the sidebar, `get_job_listings` trusts the feed's structure and reads
 * every field with `item.find(path).text`, and the page branches on the table
 * it gets back.
 */
module Work24Call {
  import opened Wrappers
  import opened XmlTree
  import opened JobFeed
  import Tally
  import App

  /** An exception nothing in the page catches. */
  datatype Fault =
    | RequestRaised(detail: string)          // `requests.get` itself raised
    | NoneHasNoText(item: nat, field: Field) // `find(path)` gave `None` and `.text` was read on it

  /** What `get_job_listings` does: raise, or return an optional table. */
  datatype Outcome = Raised(fault: Fault) | Returned(table: Option<seq<Row<Option<string>>>>)

  /** The path of column `f` leads to an element of `item`. */
  predicate Has(item: Element, f: Field)
  {
    Find(item, PathOf(f)).Some?
  }

  /** Every column's path leads to an element of `item`. */
  predicate Complete(item: Element)
  {
    forall f :: Has(item, f)
  }

  /** The first of `Fields[k..]` whose path is absent from `item`. */
  function FirstMissingFrom(item: Element, k: nat): (r: Option<nat>)
    requires k <= |Fields|
    ensures r.None? <==> forall j :: k <= j < |Fields| ==> Has(item, Fields[j])
    ensures r.Some? ==>
      && k <= r.value < |Fields|
      && !Has(item, Fields[r.value])
      && forall j :: k <= j < r.value ==> Has(item, Fields[j])
    decreases |Fields| - k
  {
    if k == |Fields| then None
    else if !Has(item, Fields[k]) then Some(k)
    else FirstMissingFrom(item, k + 1)
  }

  /**
   * The first column, in the order the row is built, whose path is absent:
   * none exactly when the element is complete.
   */
  function FirstMissing(item: Element): (r: Option<Field>)
    ensures r.None? <==> Complete(item)
    ensures r.Some? ==>
      && !Has(item, r.value)
      && forall k :: 0 <= k < Position(r.value) ==> Has(item, Fields[k])
  {
    var m := FirstMissingFrom(item, 0);
    if m.None? then
      assert Complete(item) by {
        forall f ensures Has(item, f) {
          assert Fields[Position(f)] == f;
        }
      }
      None
    else
      PositionInverse(m.value);
      Some(Fields[m.value])
  }

  /** `item.find(path).text` on a path that is present: the element's text, `None` when it has none. */
  function StrictText(item: Element, f: Field): Option<string>
    requires Has(item, f)
  {
    Find(item, PathOf(f)).value.text
  }

  /** The row built from a `wantedInfo` element all of whose paths are present. */
  function Extract(item: Element): (r: Row<Option<string>>)
    requires Complete(item)
    ensures forall f :: r.Get(f) == StrictText(item, f)
  {
    Row(StrictText(item, Company), StrictText(item, Title), StrictText(item, Salary),
        StrictText(item, Region), StrictText(item, EmploymentType), StrictText(item, Experience),
        StrictText(item, Education))
  }

  /** A present column holds the text of the first element its path reaches; a text-less element gives `None`, not "". */
  lemma StrictTextMeaning(item: Element, f: Field)
    requires Has(item, f)
    ensures exists x :: Reaches(item, PathOf(f), x) && x.text == StrictText(item, f)
  {
    FindPresent(item, PathOf(f));
  }

  /** How evaluating the row literal on one element ends: at the first absent path, or with the row. */
  datatype RowRead = MissingPath(field: Field) | RowRead(row: Row<Option<string>>)

  /** The row literal of `get_job_listings` evaluated on one element, column by column. */
  function ReadRow(item: Element): (r: RowRead)
    ensures r.MissingPath? <==> !Complete(item)
    ensures r.MissingPath? ==> FirstMissing(item) == Some(r.field)
    ensures r.RowRead? ==> Complete(item) && r.row == Extract(item)
  {
    match FirstMissing(item)
    case Some(f) => MissingPath(f)
    case None => RowRead(Extract(item))
  }

  /**
   * The loop over the `wantedInfo` elements: one row per element, in order,
   * unless reading an element's row raises; then the first such element raises.
   */
  method Tabulate(items: seq<Element>, read: Element -> RowRead) returns (result: Outcome)
    ensures result.Raised? <==> exists i :: 0 <= i < |items| && read(items[i]).MissingPath?
    ensures result.Raised? ==>
      && result.fault.NoneHasNoText?
      && result.fault.item < |items|
      && read(items[result.fault.item]) == MissingPath(result.fault.field)
      && forall j :: 0 <= j < result.fault.item ==> read(items[j]).RowRead?
    ensures result.Returned? ==>
      && result.table.Some?
      && |result.table.value| == |items|
      && forall i :: 0 <= i < |items| ==> read(items[i]) == RowRead(result.table.value[i])
  {
    var jobData: seq<Row<Option<string>>> := [];
    for i := 0 to |items|
      invariant |jobData| == i
      invariant forall j :: 0 <= j < i ==> read(items[j]) == RowRead(jobData[j])
    {
      var job := read(items[i]);
      if job.MissingPath? {
        return Raised(NoneHasNoText(i, job.field));
      }
      jobData := jobData + [job.row];
    }
    return Returned(Some(jobData));
  }

  /**
   * `get_job_listings`: a failed request raises; a status other than 200 gives
   * `None`; with 200 the `wantedInfo` elements are tabulated.
   */
  method GetJobListings(authKey: string, startPage: int, display: int, fetch: Query -> HttpOutcome)
    returns (result: Outcome)
    ensures var response := fetch(BuildQuery(authKey, startPage, display));
      && (response.RequestFailed? ==> result == Raised(RequestRaised(response.detail)))
      && (response.Answered? && response.status != 200 ==> result == Returned(None))
      && (response.Answered? && response.status == 200 ==>
            var items := Items(response.body);
            && (result.Raised? <==> exists i :: 0 <= i < |items| && !Complete(items[i]))
            && (result.Raised? ==>
                  && result.fault.NoneHasNoText?
                  && result.fault.item < |items|
                  && FirstMissing(items[result.fault.item]) == Some(result.fault.field)
                  && forall j :: 0 <= j < result.fault.item ==> Complete(items[j]))
            && (result.Returned? ==>
                  && result.table.Some?
                  && |result.table.value| == |items|
                  && forall i :: 0 <= i < |items| ==>
                       Complete(items[i]) && result.table.value[i] == Extract(items[i])))
  {
    var response := fetch(BuildQuery(authKey, startPage, display));
    if response.RequestFailed? {
      return Raised(RequestRaised(response.detail));
    }
    if response.status != 200 {
      return Returned(None);
    }
    result := Tabulate(Items(response.body), ReadRow);
  }

  /**
   * The two variants read the same text: where a path is present, the defensive
   * reader gives the strict reader's text with a missing text turned into "";
   * where it is absent, the defensive reader gives "" and the strict one raises.
   */
  lemma StrictAndDefensiveAgree(item: Element, f: Field)
    ensures Has(item, f) ==> App.FieldText(item, f) == OrEmpty(StrictText(item, f))
    ensures !Has(item, f) ==> App.FieldText(item, f) == "" && FirstMissing(item).Some?
  {
    if !Has(item, f) {
      assert !Complete(item);
    }
  }

  /** A missing text as the defensive reader renders it. */
  function OrEmpty(t: Option<string>): string
  {
    if t.Some? then t.value else ""
  }

  /** On a complete element the defensive row is the strict row with every missing text turned into "". */
  lemma StrictRowAgrees(item: Element)
    requires Complete(item)
    ensures forall f :: App.Extract(item).Get(f) == OrEmpty(Extract(item).Get(f))
  {
    forall f ensures App.Extract(item).Get(f) == OrEmpty(Extract(item).Get(f)) {
      StrictAndDefensiveAgree(item, f);
    }
  }

  /**
   * `value_counts` on a column with missing values: the keys are the distinct
   * present values, each count is how many rows hold that value, and the
   * counts add up to the number of rows holding a value: at most the number
   * of rows, and exactly that number when nothing in the column is missing.
   */
  lemma ColumnCounts(rows: seq<Row<Option<string>>>, f: Field)
    ensures var m := Tally.Count(Tally.Present(Column(rows, f)));
      && (forall i :: 0 <= i < |rows| && rows[i].Get(f).Some? ==> rows[i].Get(f).value in m)
      && (forall k :: k in m ==> Some(k) in Column(rows, f) && m[k] > 0)
      && (forall k :: k in m ==> m[k] == multiset(Column(rows, f))[Some(k)])
      && Tally.Total(m) == |rows| - multiset(Column(rows, f))[None]
      && Tally.Total(m) <= |rows|
      && (Tally.Total(m) == |rows| <==> forall i :: 0 <= i < |rows| ==> rows[i].Get(f).Some?)
  {
    var col := Column(rows, f);
    var present := Tally.Present(col);
    Tally.CountTotal(present);
    Tally.PresentKeepsAll(col);
    forall k | k in Tally.Count(present)
      ensures Some(k) in col && Tally.Count(present)[k] == multiset(col)[Some(k)]
    {
      var i :| 0 <= i < |present| && present[i] == k;
      Tally.PresentMultiplicity(col, k);
    }
  }

  /** What the page shows (work24_call.py, from the credential check on). */
  datatype Screen =
    | KeyPrompt                  // the info asking for a credential
    | Form                       // credential entered, search not pressed
    | Crashed(fault: Fault)      // an exception escaped `get_job_listings`
    | CallFailed                 // `get_job_listings` returned `None`
    | NoResults                  // the warning for an empty table
    | Dashboard(rows: seq<Row<Option<string>>>, regionCounts: map<string, nat>,
                employmentCounts: map<string, nat>)

  /**
   * One run of the page: nothing is requested without a credential or without
   * a press. An exception escapes exactly when the request fails or some job
   * element lacks a path; `None` leads to neither the dashboard nor the
   * warning; an empty table is only a warning. A 200 answer whose job elements
   * are all complete and not none gets the dashboard: one row per job element,
   * and region and employment-type counts over the present values of their
   * columns.
   */
  method SearchPage(authKey: string, pressed: bool, startPage: int, display: int,
                    fetch: Query -> HttpOutcome)
    returns (screen: Screen)
    requires WidgetBounds(startPage, display)
    ensures authKey == "" ==> screen == KeyPrompt
    ensures authKey != "" && !pressed ==> screen == Form
    ensures authKey != "" && pressed ==>
      var response := fetch(BuildQuery(authKey, startPage, display));
      && (screen.Crashed? <==>
            response.RequestFailed? ||
            (response.status == 200 && exists i :: 0 <= i < |Items(response.body)| && !Complete(Items(response.body)[i])))
      && (response.RequestFailed? ==> screen == Crashed(RequestRaised(response.detail)))
      && (screen.CallFailed? <==> response.Answered? && response.status != 200)
      && (screen.NoResults? <==> response.Answered? && response.status == 200 && Items(response.body) == [])
      && (screen.Dashboard? <==>
            && response.Answered? && response.status == 200
            && Items(response.body) != []
            && forall i :: 0 <= i < |Items(response.body)| ==> Complete(Items(response.body)[i]))
      && (screen.Dashboard? ==>
            var rows, items := screen.rows, Items(response.body);
            && |rows| == |items| >= 1
            && (forall i :: 0 <= i < |items| ==> Complete(items[i]) && rows[i] == Extract(items[i]))
            && screen.regionCounts == Tally.Count(Tally.Present(Column(rows, Region)))
            && screen.employmentCounts == Tally.Count(Tally.Present(Column(rows, EmploymentType)))
            && Tally.Total(screen.regionCounts) == |rows| - multiset(Column(rows, Region))[None]
            && Tally.Total(screen.employmentCounts) == |rows| - multiset(Column(rows, EmploymentType))[None])
  {
    if authKey == "" {
      return KeyPrompt;
    }
    if !pressed {
      return Form;
    }
    var result := GetJobListings(authKey, startPage, display, fetch);
    match result
    case Raised(fault) =>
      screen := Crashed(fault);
    case Returned(table) =>
      if table.Some? && table.value != [] {
        var rows := table.value;
        ColumnCounts(rows, Region);
        ColumnCounts(rows, EmploymentType);
        screen := Dashboard(rows, Tally.Count(Tally.Present(Column(rows, Region))),
                            Tally.Count(Tally.Present(Column(rows, EmploymentType))));
      } else if table.Some? {
        screen := NoResults;
      } else {
        screen := CallFailed;
      }
  }

  /** A leaf element holding `text`. */
  function Leaf(tag: string, text: string): Element
  {
    Element(tag, Some(text), [])
  }

  /** The six one-step columns of a job element, in row order. */
  function Details(): seq<Element>
  {
    [Leaf("wantedTitle", "t"), Leaf("salTpNm", "s"), Leaf("workRegion", "r"),
     Leaf("empTpNm", "e"), Leaf("enterTpNm", "x"), Leaf("eduNm", "d")]
  }

  /** A complete job element whose company is "c". */
  function FullJob(): Element
  {
    Element("wantedInfo", None, [Element("corpInfo", None, [Leaf("corpNm", "c")])] + Details())
  }

  /** A job element without `corpInfo`. */
  function JobWithoutCompany(): Element
  {
    Element("wantedInfo", None, Details())
  }

  /** A feed with two job elements, the second without `corpInfo/corpNm`. */
  function TwoJobFeed(): Element
  {
    Element("wantedRoot", None, [FullJob(), JobWithoutCompany()])
  }

  /** No detail column is tagged `wantedInfo` or `corpInfo`. */
  lemma DetailsUntagged()
    ensures WithTag(Details(), "wantedInfo") == [] && WithTag(Details(), "corpInfo") == []
  {
    WithTagNone(Details(), "wantedInfo");
    WithTagNone(Details(), "corpInfo");
  }

  /** Document order inside the full job element: `corpInfo`, its `corpNm`, then the detail columns. */
  lemma FullJobOrder()
    ensures Descendants(FullJob()) == [FullJob().children[0], Leaf("corpNm", "c")] + Details()
  {
    var first := FullJob();
    var corp := first.children[0];
    PreorderOfLeaves(corp.children);
    PreorderOfLeaves(Details());
    assert first.children[1..] == Details();
  }

  /** Document order of the feed: each job element followed by everything inside it. */
  lemma TwoJobFeedOrder()
    ensures Descendants(TwoJobFeed()) ==
      ([FullJob()] + [FullJob().children[0], Leaf("corpNm", "c")] + Details()) +
      ([JobWithoutCompany()] + Details())
  {
    var first, second := FullJob(), JobWithoutCompany();
    FullJobOrder();
    PreorderOfLeaves(Details());
    assert TwoJobFeed().children[1..] == [second] && [second][1..] == [];
    assert Preorder([second]) == [second] + Details();
    assert Preorder(TwoJobFeed().children) == [first] + Descendants(first) + Preorder([second]);
    var inner := [first.children[0], Leaf("corpNm", "c")];
    assert [first] + (inner + Details()) == [first] + inner + Details();
  }

  /** `findall('.//wantedInfo')` on that feed gives its two job elements. */
  lemma TwoJobFeedItems()
    ensures Items(TwoJobFeed()) == [FullJob(), JobWithoutCompany()]
  {
    var first, second := FullJob(), JobWithoutCompany();
    var inner := [first.children[0], Leaf("corpNm", "c")];
    TwoJobFeedOrder();
    WithTagAppend([first] + inner + Details(), [second] + Details(), "wantedInfo");
    WithTagAppend([first] + inner, Details(), "wantedInfo");
    WithTagAppend([first], inner, "wantedInfo");
    WithTagAppend([second], Details(), "wantedInfo");
    DetailsUntagged();
    assert WithTag(inner, "wantedInfo") == [];
  }

  /** The full job element's company path leads to its `corpNm`, whose text is "c". */
  lemma FullJobCompany()
    ensures Find(FullJob(), PathOf(Company)) == Some(Leaf("corpNm", "c"))
    ensures App.FieldText(FullJob(), Company) == "c"
  {
    FullJobCompanyPath();
  }

  /** Following `corpInfo/corpNm` from the full job element reaches exactly its `corpNm` leaf. */
  lemma FullJobCompanyPath()
    ensures Select([FullJob()], PathOf(Company)) == [Leaf("corpNm", "c")]
  {
    var job := FullJob();
    var corp := job.children[0];
    assert [job][1..] == [] && [corp][1..] == [];
    assert job.children[1..] == Details();
    DetailsUntagged();
    assert WithTag(job.children, "corpInfo") == [corp];
    assert ChildStep([job], "corpInfo") == [corp];
    assert ChildStep([corp], "corpNm") == corp.children;
  }

  /** Every column's path is present in the full job element. */
  lemma FullJobComplete()
    ensures Complete(FullJob())
  {
    var job := FullJob();
    FullJobCompany();
    forall f | f != Company ensures Has(job, f) {
      assert PathOf(f) == [job.children[Position(f)].tag];
      OneStepPresent(job, Position(f));
    }
  }

  /** The job element without `corpInfo` fails first at its company column. */
  lemma JobWithoutCompanyMissing()
    ensures FirstMissing(JobWithoutCompany()) == Some(Company)
    ensures App.FieldText(JobWithoutCompany(), Company) == ""
  {
    var job := JobWithoutCompany();
    DetailsUntagged();
    assert [job][1..] == [];
    assert ChildStep([job], "corpInfo") == [];
    assert Select([job], ["corpInfo", "corpNm"]) == Select([], ["corpNm"]) == [];
    assert !Has(job, Company);
  }

  /**
   * On that feed the strict reader raises at the second element's company
   * column (by `Tabulate`, the fault is item 1, column company), while the
   * defensive reader's second row has company "".
   */
  lemma TwoJobFeedDiverges()
    ensures var items := Items(TwoJobFeed());
      && |items| == 2
      && Complete(items[0])
      && FirstMissing(items[1]) == Some(Company)
      && App.FieldText(items[0], Company) == "c"
      && App.FieldText(items[1], Company) == ""
  {
    TwoJobFeedItems();
    FullJobComplete();
    FullJobCompany();
    JobWithoutCompanyMissing();
  }

  /** Nothing in that feed is an `error` element, so the defensive reader goes on to the job elements. */
  lemma TwoJobFeedHasNoError()
    ensures forall d :: Below(d, TwoJobFeed()) ==> d.tag != "error"
  {
    TwoJobFeedOrder();
    forall d | Below(d, TwoJobFeed()) ensures d.tag != "error" {
      DescendantsAreBelow(TwoJobFeed(), d);
    }
  }

  /** The defensive reader classifies a 200 answer carrying that feed as a success. */
  lemma TwoJobFeedSucceeds()
    ensures App.Classify(Answered(200, "", TwoJobFeed())) == App.Success
  {
    TwoJobFeedHasNoError();
    TwoJobFeedItems();
    App.SuccessIff(Answered(200, "", TwoJobFeed()));
  }

  /** A 200 answer carrying that feed, whatever the query. */
  function TwoJobFeedServer(q: Query): HttpOutcome
  {
    Answered(200, "", TwoJobFeed())
  }

  /** The strict `get_job_listings` on a 200 answer carrying that feed raises at item 1, column company. */
  method StrictTwoJobFeedRun() returns (result: Outcome)
    ensures result == Raised(NoneHasNoText(1, Company))
  {
    var items := Items(TwoJobFeed());
    TwoJobFeedDiverges();
    assert !Complete(items[1]) && FirstMissing(items[0]).None?;
    result := GetJobListings("key", 1, 10, TwoJobFeedServer);
    assert result.Raised? && result.fault.item < 2;
    assert result.fault.item != 0;
  }

  /** The defensive `get_job_listings` on the same answer returns both rows, the second with company "". */
  method DefensiveTwoJobFeedRun() returns (table: Option<seq<Row<string>>>, message: string)
    ensures table.Some? && |table.value| == 2 && message == App.SuccessMessage
    ensures table.value[0].company == "c" && table.value[1].company == ""
  {
    var items := Items(TwoJobFeed());
    TwoJobFeedDiverges();
    TwoJobFeedSucceeds();
    table, message := App.GetJobListings("key", 1, 10, TwoJobFeedServer);
    assert table.value[0] == App.Extract(items[0]) && table.value[1] == App.Extract(items[1]);
  }
}
