# Job-feed response-to-table pipeline

A Dafny model of the job-search pages of the 고용24 (work24) open-API tools. Each page asks
the listing endpoint `callOpenApiSvcInfo210L01.do` for one page of job postings. It turns the
XML feed into a table with seven columns: company, title, salary type, region, employment
type, experience, education. Then it charts how often each region and each employment type
occurs.

The pipeline exists in two versions, and both are modelled:

- `app.py` is defensive. It classifies every search as one of four outcomes: a transport
  failure, a remote `error` element, an empty result, or a non-empty table. It reads each
  field with `findtext(path, default="")`, so it never fails on missing structure.
- `work24_call.py` is strict. It gates the search on a credential typed into the sidebar and
  checks only for status 200. It reads each field with `find(path).text`, so a job element
  that lacks a path raises an exception that nothing catches.

Modules, one per file:

- `XmlTree` is the parsed document as a recursive `Element` datatype (tag, optional text,
  ordered children). It defines the ElementTree lookups the pipeline uses:
  - `.//tag`: every element strictly below a node, in document (pre-)order;
  - relative child paths such as `corpInfo/corpNm`;
  - `find`, `findall` and `findtext`.

  Each lookup is proved against an independent reference definition: `Below` for
  descendants, `Reaches` for paths.
- `JobFeed` holds what both pages share: the query parameter map, the outcome of the HTTP
  call, the seven fields, their XML paths and the row type.
- `Tally` models `value_counts` as a map from each distinct value to its count, with the sum
  of its counts.
- `App` is `app.py`. `Work24Call` is `work24_call.py`.

The HTTP call is the parameter `fetch: Query -> HttpOutcome`. Its outcome is either a
request failure with its message, or a status, the error text for that status and the parsed
body. The credential is an ordinary parameter.

## Model

| member | source | states |
|---|---|---|
| `JobFeed.BuildQuery` | app.py:13-19 | the parameter map has exactly the keys authKey, callTp, returnType, startPage, display, with callTp = "L" and returnType = "XML" |
| `JobFeed.QueryRoundTrip` | app.py:13-19 | credential, start page and page size can be read back unchanged from the map |
| `JobFeed.HeadersDistinct` | app.py:36-44 | the seven column headers are distinct dictionary keys, so each row has seven columns and `df['지역']` selects the region column alone |
| `JobFeed.QueryOnlyFromBuild` | work24_call.py:9-15 | every map of the endpoint's shape is the one built from the values it carries, so the builder is injective |
| `XmlTree.DescendantsAreBelow` | app.py:35 | `.//` ranges over exactly the elements strictly below the node (reference: `Below`) |
| `XmlTree.RootExcluded` | app.py:35 | a node is never among its own `.//` matches |
| `XmlTree.FindAllExact` | app.py:35 | `findall('.//tag')` holds exactly the elements below the node that carry the tag |
| `XmlTree.FindFirstIsFirst` | app.py:30 | `find('.//tag')` is None iff no element below carries the tag; otherwise it is the first such element in document order |
| `XmlTree.SelectMembers` | work24_call.py:25 | a child path selects exactly the elements reached from the context along it (reference: `Reaches`) |
| `XmlTree.FindPresent` | work24_call.py:25-31 | `find(path)` succeeds iff the path leads somewhere, and what it returns is reached by the path |
| `XmlTree.FindChildIsFirst` | app.py:38-43 | a one-step path finds the first child with that tag |
| `XmlTree.WithTagFirst` | app.py:30 | the first element kept by tag filtering is the first element in the sequence with that tag |
| `XmlTree.WithTagAppend` | app.py:35 | tag filtering distributes over concatenation, so document order is kept |
| `App.Extract` | app.py:36-44 | every column of the row is that column's `findtext(path, "")` |
| `App.ExtractAll` | app.py:34-45 | the loop over the job elements yields one row per element, in order, each row being that element's `Extract` |
| `App.FieldTextMeaning` | app.py:37-43 | a column is "" iff its path is absent or its first match has no or empty text; any other value is the text of an element the path reaches; reading never fails |
| `App.GetJobListings` | app.py:10-50 | the returned pair decodes to the reference classification (`Classify`). A request failure or a 4xx/5xx status gives None and "API 요청 실패: " + cause. An `error` element anywhere below the root gives None and "API 에러: " + its text, even when job elements exist. No job elements gives None and the no-data message. Otherwise the table has one row per `wantedInfo` element in document order, at least one row, and the message "성공" |
| `App.SuccessIff` | app.py:21-50 | a search succeeds iff the answer is not a 4xx/5xx status, no element below the root is an `error` element, and `findall('.//wantedInfo')` is non-empty |
| `App.RemoteErrorFound` | app.py:30-32 | when the search is classified as a remote error, `find('.//error')` finds an element, whose text is reported |
| `App.ColumnCounts` | app.py:76 | the counts of a string column have the column's distinct values as keys, are positive, and sum to the row count |
| `App.DashboardCounts` | app.py:64-83 | a table is shown with region and employment-type counts whose keys are those columns' distinct values and whose sums equal the row count |
| `App.SearchPage` | app.py:60-95 | nothing is fetched without a press. After a press, the dashboard appears iff the search succeeded. It shows one `Extract` row per job element in document order, with `value_counts` of the region and employment-type columns of those rows: keys are the distinct values and totals equal the row count. Otherwise the error text is "검색 결과가 없습니다. 원인: " followed by the exact message `get_job_listings` returned for the request failure, the remote error or the empty result |
| `Tally.Count` | app.py:82 | the keys are the distinct values and each count equals the value's multiplicity, so it is positive |
| `Tally.TotalRemove` | app.py:82 | the sum of a count map does not depend on which key is taken first |
| `Tally.CountTotal` | app.py:82 | the counts sum to the length of the column |
| `Tally.Present` | work24_call.py:64 | dropping missing values loses exactly the missing entries, keeps every present value and adds none |
| `Tally.PresentMultiplicity` | work24_call.py:64 | each present value occurs as often after dropping missing values as it did in the column |
| `Tally.PresentKeepsAll` | work24_call.py:69 | dropping missing values keeps the length iff no value in the column is missing |
| `Work24Call.FirstMissingFrom` | work24_call.py:24-32 | the first column, in row-building order from a given position, whose path is absent; none iff all are present |
| `Work24Call.FirstMissing` | work24_call.py:24-32 | none iff the job element is complete; otherwise that column's path is absent and every earlier column's path is present |
| `Work24Call.Extract` | work24_call.py:24-32 | on a complete element every column is `find(path).text` |
| `Work24Call.StrictTextMeaning` | work24_call.py:25-31 | a present column holds the (possibly None) text of an element its path reaches |
| `Work24Call.ReadRow` | work24_call.py:24-32 | the row literal evaluated column by column: it stops at the first absent path exactly when the element is incomplete, otherwise it gives the strict row |
| `Work24Call.Tabulate` | work24_call.py:22-35 | raises iff reading some element's row raises, naming the first such element and its missing column; otherwise one row per element, in order |
| `Work24Call.GetJobListings` | work24_call.py:6-38 | a failed request raises. Any status other than exactly 200 gives None. With 200 the result is the tabulation of every `wantedInfo` element, so it may be an empty table |
| `Work24Call.StrictAndDefensiveAgree` | work24_call.py:25-31 | where a path is present, app.py's reader gives work24's text with None turned into ""; where it is absent, app.py gives "" and work24 raises |
| `Work24Call.StrictRowAgrees` | work24_call.py:24-32 | on a complete element, app.py's row is work24's row with every None turned into "" |
| `Work24Call.ColumnCounts` | work24_call.py:64-69 | the counts of an optional column have the present values as keys, and each count is the number of rows holding that value. They sum to the row count minus the missing entries, so to the row count iff no value is missing |
| `Work24Call.SearchPage` | work24_call.py:44-83 | with an empty credential the key prompt shows and nothing is fetched; without a press only the form shows. After a press an exception escapes iff the request fails or a job element lacks a path; a non-200 status gives neither the dashboard nor the warning; no job elements gives only the warning. The dashboard appears iff the status is 200 and there are job elements, all complete. It shows one `Extract` row per job element, and counts over present values that total the row count minus the missing entries |
| `Work24Call.TwoJobFeedItems` | work24_call.py:23 | on a feed with two job elements, `findall('.//wantedInfo')` returns both, in order |
| `Work24Call.TwoJobFeedDiverges` | work24_call.py:25 | on that feed, whose second job lacks `corpInfo/corpNm`, the first job is complete and the second fails first at company; app.py reads company "c" and "" |
| `Work24Call.TwoJobFeedHasNoError` | app.py:30 | no element of that feed is an `error` element |
| `Work24Call.TwoJobFeedSucceeds` | app.py:30-50 | app.py classifies a 200 answer carrying that feed as a success |
| `Work24Call.StrictTwoJobFeedRun` | work24_call.py:6-38 | work24's `get_job_listings` on a 200 answer carrying that feed raises at item 1, column company |
| `Work24Call.DefensiveTwoJobFeedRun` | app.py:10-50 | app.py's `get_job_listings` on the same answer returns "성공" and two rows, whose companies are "c" and "" |

## Left out

- The HTTP request itself (`requests.get`, the 10-second timeout, `raise_for_status`) is the `fetch` parameter. For a failed request or a 4xx/5xx status the model takes the exception text as given; requests' own wording of it is not modelled.
- The endpoint address (app.py:11, work24_call.py:7) is fixed, so it is not a value in the model: `fetch` stands for a request to that address.
- XML parsing (`ET.fromstring`) is not modelled: the parsed tree is the input. A malformed body raises outside any `try` in both files (app.py:27, work24_call.py:20), and that fault is not modelled.
- Attributes, tail text and namespaces of XML elements, and ElementPath forms other than `.//tag` and plain child paths, are not modelled: the pipeline uses none of them.
- pandas is not modelled. A table is a sequence of seven-field rows; DataFrame construction, column dtypes and the CSV export (`to_csv`, the `utf-8-sig` encoding, the download button) are left out as foreign serialisation.
- Streamlit rendering is not modelled: page config, titles, spinner, charts, success/info/warning texts, the status-code error text shown at work24_call.py:37, and the debug checkbox at app.py:98-99. The checkbox reads `message` even on runs where no search assigned it.
- The credential constant hard-coded in app.py:8 is configuration; the model takes the credential as a parameter.
- analyst_1.py (the language-model report page) is not part of this model: it is a foreign completion call behind a static prompt.
- Tally.Count: a map, so the count-descending order of pandas' `value_counts` result is not captured.
- JobFeed.BuildQuery: a map, so the insertion order in which the parameters are URL-encoded is not captured.
- The model follows the code in these points:
  - only an `error` element is checked for (app.py:30), and work24_call.py checks for no error element at all;
  - app.py treats only 4xx and 5xx statuses as failures, so other statuses go on to parsing;
  - work24_call.py accepts only status 200, sets no timeout, and lets a failed request raise.

## Findings

| source | as written | input that shows it | evidently intended | confidence | as-written member | corrected member |
|---|---|---|---|---|---|---|
| work24_call.py:25-31 | `item.find(path).text` raises when a job element lacks one of the seven paths, and the exception ends the whole page | a feed whose second `wantedInfo` has no `corpInfo/corpNm` (`Work24Call.TwoJobFeed`) | an absent path yields an empty field and the table keeps every job, as app.py:37-43 does | medium, not executed | `Work24Call.StrictTwoJobFeedRun` | `App.GetJobListings` |
