# Bank-statement normaliser and EC2 inventory, modelled in Dafny

The repository has two small tools. This project models the core of each and
proves properties of the models.

**Report normaliser (`app.py`).**
- `process_page` reads the first table of one PDF page.
- It pushes the table's header labels down as an ordinary first row and renumbers the columns 0..N-1.
- It drops the artefact columns named by position and renumbers again.
- `process_pdf` takes the header from the second table of page 1 and stacks pages 2 to 5.
- It relabels the stacked frame with that header and erases the extractor's `Unnamed: <n>` placeholder cells.
- Finally it derives two columns: `Amount`, from `Disputed Amount: <n>` in `Transaction Details`, and `Layer`, from `Layer : <n>` in the account column.

**EC2 inventory (`ec2_private.py`).**
- Three functions walk one describe-instances response, reservation by reservation and instance by instance.
- They collect the private addresses, the public addresses, or the ids of instances whose metadata hop limit is 1.
- Any exception replaces the whole result with `[]`.

Files:
- `wrappers.dfy`: `Option` and `Result`.
- `table.dfy` (module `Table`): cells, frames, and the pandas operations the normaliser uses by name.
  - `frame[key]` is `Lookup`.
  - `frame[key] = values` is `AssignColumn`.
  - `frame.columns = labels` is `Relabel`.
- `extractors.dfy` (module `Extractors`): the placeholder test, and the Money and Layer extractors as scanners with the semantics of Python's `re.search`.
- `report.dfy` (module `Report`):
  - `process_page` as the function `ProcessPage`;
  - the pipeline of `process_pdf` as the functions `Normalised`, `Derive` and `PdfResult`;
  - `process_pdf` itself as the method `ProcessPdf`, which builds a `DataFrame` object and changes it in place, as the source does.
- `inventory.dfy` (module `Inventory`): the three walks as methods with nested loops, each proved equal to a specification function, plus the lemmas about those functions.

Modelling choices:
- A cell is a string, a non-negative integer or missing (`NaN` / `None`). A column label is a cell, as in pandas.
- The PDF table extractor (`tabula.read_pdf`) is a parameter: a function from a page number to the page's tables, each rectangular.
- The describe-instances call is a parameter: a response, or the failure of the session, the client or the call.
- A dictionary key the walk reads may be absent, so each such key is an `Option`.
- Stacking frames of different widths pads the narrower rows with missing cells. Every page frame is labelled 0..w-1, so the union of the labels is 0..max-1.
- A label that occurs twice makes `frame[key]` an error. pandas then yields a frame, on which the per-cell extractors fail.
- Assigning to a label that occurs more than once overwrites every occurrence. Assigning to a label that does not occur appends a column.
- `Money` of a number searches its decimal numeral, which can never contain the prefix. So it is always missing (`MoneyMissing`).
- `Layer` has no missing-value guard. A non-string account cell raises in `re.search`, so `process_pdf` fails (`DeriveOutcome`). This includes a cell that was a placeholder, or padding from a narrower page.

## Model

| member | source | states |
|---|---|---|
| `Report.ProcessPage` | app.py:12-18 | no table on the page is the index error; otherwise the page fails exactly when some drop label lies outside 0..N-1, with a key error that lists those labels; a successful page frame is rectangular and labelled 0..width-1 |
| `Report.ProcessTable` | app.py:14-17 | push-down, renumber, drop and renumber fail exactly when a drop label lies outside 0..N-1, with a key error that lists those labels; the result is rectangular and labelled 0..width-1 |
| `Report.ProcessTableShape` | app.py:14-17 | a successful page names only labels inside 0..N-1, and its rows are the header row followed by the data rows, each with the dropped positions removed |
| `Report.ProcessTableHeader` | app.py:14-17 | a successful page has one row more than its table; row 0 holds the header labels at the kept positions |
| `Report.ProcessTableRow` | app.py:14-17 | row i+1 of a successful page is data row i at the kept positions |
| `Report.ProcessTableColumns` | app.py:14-17 | row 0 is the header labels at the kept positions; row i+1 is input row i at the kept positions; the width is N minus the number of dropped positions; the labels are 0..width-1 |
| `Report.PushHeaderDown` | app.py:14 | the frame with its labels prepended as a row stays rectangular; its rows are stated by `HeaderIsLabels` and `ProcessTableColumns` |
| `Report.HeaderIsLabels` | app.py:23-24 | the first row after the push-down is exactly the table's labels, so `df.iloc[0]` is the header of page 1's second table |
| `Report.Renumber` | app.py:15 | renumbering keeps the frame rectangular, labels it 0..width-1 and leaves every row unchanged |
| `Report.Missing` | app.py:16 | a label is reported missing exactly when it is a drop label outside 0..N-1 |
| `Report.KeptPositions` | app.py:16 | the surviving positions are below N, not dropped, strictly ascending, and include every undropped position |
| `Report.KeptCount` | app.py:16 | the number of surviving positions is N minus the number of dropped positions below N |
| `Report.DropRow` | app.py:16 | a dropped row has one cell per surviving position |
| `Report.DropRowKept` | app.py:16 | cell j of a dropped row is the cell at the j-th surviving position |
| `Report.DropRows` | app.py:16 | every row is dropped the same way and no row is lost |
| `Report.DropRowsKept` | app.py:16 | row i of the dropped rows holds, at j, the cell of input row i at the j-th surviving position |
| `Report.DropColumns` | app.py:16 | on a frame labelled 0..N-1, the drop fails exactly when some label lies outside 0..N-1, with a key error that lists those labels; a successful drop keeps the frame rectangular and keeps every row; which cells survive is stated by `ProcessTableColumns` |
| `Report.MaxWidth` | app.py:31 | the stacked width is at least every page's width and equal to some page's width |
| `Report.PadRow` | app.py:31 | a narrower row keeps its cells and is filled with missing cells up to the stacked width |
| `Report.StackRows` | app.py:31 | the stacked rows number the sum of the page row counts, each of the stacked width |
| `Report.Stack` | app.py:31 | for frames each rectangular and labelled 0..w-1, the stacked frame is rectangular, labelled 0..max-1, with the total row count |
| `Report.StackLayout` | app.py:31 | row i of page p is row RowCount(pages before p)+i of the result; its prefix is the page row, the rest is missing; a full-width row appears unchanged |
| `Report.AllOk` | app.py:26-29 | all pages succeed exactly when each does, with the page frames in order; otherwise the error is that of the first failing page |
| `Report.PageOutcomes` | app.py:26-29 | entry k is process_page of the k-th page number with its drop list |
| `Report.ProcessPages` | app.py:26-29 | the page frames that succeed can be stacked; their order and the first failure are stated by `ProcessPagesOrder` |
| `Report.ProcessPagesOrder` | app.py:26-31 | success exactly when every page succeeds; page k of the result is page k of the layout; a failure is that of the earliest failing page |
| `Report.EraseFrame` | app.py:35 | every cell is replaced by its erased form; the labels and the shape are unchanged |
| `Report.MapMoney` | app.py:49 | cell i of the new column is Money of cell i of `Transaction Details` |
| `Report.MapLayer` | app.py:50 | the column is produced exactly when every account cell is a string, else the type error; cell i is Layer of account cell i |
| `Report.Normalised` | app.py:23-35 | a normalised frame is rectangular; its labels, rows and cells are stated by `NormalisedFrame`, its errors by `NormalisedFails` |
| `Report.NormalisedFails` | app.py:23-34 | page 1 without a second table raises the index error; then the earliest failing page decides the error; then the frame relabels exactly when the header length equals the stacked width, else a length mismatch with both counts |
| `Report.NormalisedFrame` | app.py:23-35 | the labels are the header of page 1's second table; the rows number the stacked rows; each cell is the stacked cell with placeholders erased |
| `Report.NormalisedNoPlaceholders` | app.py:35 | no cell of the normalised frame is a placeholder string |
| `Report.ReportRowCount` | app.py:26-31 | the report has the rows of pages 2 to 5, each page contributing its table's rows plus the pushed-down header row |
| `Report.Derive` | app.py:49-50 | a derived frame is rectangular, keeps every row and keeps the existing labels as a prefix; when it succeeds is stated by `DeriveOutcome`, its columns by `DeriveColumns` |
| `Report.PdfResult` | app.py:21-52 | a normalisation error is the result's error; a result keeps the normalised rows, is rectangular and starts with the normalised labels; it is what `ProcessPdf` is proved to compute |
| `Report.DeriveOutcome` | app.py:49-50 | the columns are derived exactly when `Transaction Details` and the account label each occur once and every account cell is a string; otherwise the error of the first failing step |
| `Report.DeriveColumns` | app.py:49-50 | `Amount` reads back as Money of each details cell; `Layer` reads back as Layer of each account cell; every other column is unchanged; the two labels are appended when new |
| `Report.DataFrame.constructor` | app.py:31 | the new frame object holds the stacked frame |
| `Report.DataFrame.SetColumns` | app.py:34 | the labels are replaced exactly when their count matches; otherwise a length mismatch is raised and the frame is unchanged |
| `Report.DataFrame.ReplacePlaceholders` | app.py:35 | the frame becomes its placeholder-erased form |
| `Report.DataFrame.Assign` | app.py:49-50 | the frame becomes the frame with the column assigned |
| `Report.ProcessPdf` | app.py:21-52 | the method fails exactly when the composed pipeline does, with the same error; on success it returns a fresh frame object equal to the pipeline's frame |
| `Table.Lookup` | app.py:49-50 | a column is read exactly when its label occurs once, with one cell per row from that column; a missing label is a key error, a duplicated one an ambiguity error |
| `Table.AssignColumn` | app.py:49-50 | cells under the key become the values and all others are unchanged; a new key is appended as the last column |
| `Table.AssignThenLookup` | app.py:49-50 | reading back a just-assigned column gives the assigned values when the label did not occur twice |
| `Table.AssignOtherLookup` | app.py:49-50 | assigning one column leaves the lookup of every other label unchanged |
| `Table.AssignTwice` | app.py:49-50 | two assignments under distinct labels that are not duplicated both read back as assigned, leave every other column unchanged, and append new labels in order |
| `Table.CountZero` | app.py:49-50 | a label has no occurrence exactly when it is not among the labels |
| `Table.IndexOf` | app.py:49-50 | the position found holds the label and no earlier position does |
| `Table.Relabel` | app.py:34 | relabelling succeeds exactly when the counts agree, keeping the rows; otherwise a length mismatch with both counts |
| `Extractors.EraseCell` | app.py:35 | a cell becomes missing exactly when it is missing or a placeholder string; otherwise it is unchanged |
| `Extractors.EraseCellIdempotent` | app.py:35 | erasing leaves no placeholder, and erasing twice is erasing once |
| `Extractors.PlaceholderShape` | app.py:35 | a placeholder is exactly `Unnamed: ` followed by one or more digits |
| `Extractors.Decimal` | app.py:45 | the numeral of a number is a non-empty string of digits; it is `0` for zero and has no leading zero otherwise |
| `Extractors.DecimalRoundTrip` | app.py:45 | the value of the numeral of n is n |
| `Extractors.FindFrom` | app.py:39 | the position found is the leftmost at or after the start where the prefix is followed by a digit; none is found only when there is no such position |
| `Extractors.DigitRunEnd` | app.py:40 | the digit run is maximal: it is all digits and ends at the end or at a non-digit |
| `Extractors.Search` | app.py:39-40 | the search finds nothing exactly when the pattern matches nowhere; what it finds is stated by `SearchFinds` |
| `Extractors.SearchFinds` | app.py:39-40 | at the leftmost match, the result is the value of the maximal digit run after the prefix |
| `Extractors.SearchDigitsOnly` | app.py:45 | a numeral contains no match of a prefix that starts with a non-digit |
| `Extractors.Money` | app.py:42-46 | the result is never a string, and a missing cell or a number gives a missing result; its value on a text is stated by `MoneyOfText` and `MoneyMissing` |
| `Extractors.Layer` | app.py:38-40 | Layer fails with the type error exactly on a non-string cell and otherwise never yields a string; its value on a text is stated by `LayerOfText` and `LayerMissing` |
| `Extractors.ToCell` | app.py:40 | no match gives a missing cell and a match gives the number |
| `Extractors.MoneyOfText` | app.py:42-46 | Money of a text is the number after the leftmost `Disputed Amount: ` that a digit follows |
| `Extractors.MoneyMissing` | app.py:42-46 | Money is missing exactly for a missing cell, a number, or a text without the pattern |
| `Extractors.MoneyRoundTrip` | app.py:42-46 | a field written as `Disputed Amount: <n>` and followed by a non-digit reads back as n |
| `Extractors.LayerOfText` | app.py:38-40 | Layer of a text is the number after the leftmost `Layer : ` that a digit follows |
| `Extractors.LayerMissing` | app.py:38-40 | Layer fails exactly on a non-string, and is missing exactly for a text without the pattern |
| `Extractors.LayerRoundTrip` | app.py:38-40 | a field written as `Layer : <n>` and followed by a non-digit reads back as n |
| `Inventory.CollectAddresses` | ec2_private.py:39-45 | the collected list equals the address specification of the response |
| `Inventory.GetEc2PrivateIps` | ec2_private.py:20-49 | the result is the specification of the private addresses |
| `Inventory.GetEc2PublicIps` | ec2_private.py:51-80 | the result is the specification of the public addresses |
| `Inventory.GetEc2Imdsv1Ips` | ec2_private.py:83-113 | the loops, with their early exits, return exactly the specification of the hop-limit-1 ids |
| `Inventory.InstancesAppend` | ec2_private.py:40-41 | walking concatenated reservations concatenates their instance lists, and fails if either walk fails |
| `Inventory.InstancesFail` | ec2_private.py:41 | the walk fails exactly when some reservation lacks `Instances` |
| `Inventory.Instances` | ec2_private.py:40-41 | a complete walk visits every listed instance once; its failure is stated by `InstancesFail`, its order by `InstancesAt` and `InstancesAppend` |
| `Inventory.InstancesAt` | ec2_private.py:40-41 | instance j of reservation i is visited after every instance of earlier reservations and after instances 0..j-1 of its own |
| `Inventory.AddressesAppend` | ec2_private.py:42-43 | the addresses of a concatenation are the concatenation of the addresses |
| `Inventory.AddressesMembership` | ec2_private.py:42-43 | an address is collected exactly when some instance carries it |
| `Inventory.Addresses` | ec2_private.py:42-43 | there is at most one address per instance; which addresses and in what order is stated by `AddressesMembership` and `AddressesAppend` |
| `Inventory.AddressesAllPresent` | ec2_private.py:42-43 | there is exactly one address per instance when every instance has the key |
| `Inventory.AddressesResultMembership` | ec2_private.py:39-49 | an address is in the result exactly when the walk completes and some instance of some reservation carries it |
| `Inventory.AddressesResult` | ec2_private.py:39-49 | the list is never longer than the number of listed instances, and is empty when none are listed; its contents are stated by `AddressesResultMembership`, its failures by `AddressesResultFails` |
| `Inventory.AddressesResultFails` | ec2_private.py:47-49 | a failed call, a missing `Reservations`, or a reservation without `Instances` gives the empty list |
| `Inventory.Judge` | ec2_private.py:105-107 | an instance is a candidate exactly when it has metadata options with hop limit 1 and an id; a missing hop limit, or a missing id at hop limit 1, raises |
| `Inventory.ImdsAppend` | ec2_private.py:103-107 | the candidates of a concatenation are the concatenated candidates, and a failure either side fails |
| `Inventory.ImdsFail` | ec2_private.py:105-107 | the candidates' walk fails exactly when some instance makes a lookup raise |
| `Inventory.ImdsMembership` | ec2_private.py:105-107 | an id is a candidate exactly when an instance with that id is judged a candidate |
| `Inventory.Imds` | ec2_private.py:102-107 | there are no more candidates than instances; which ids is stated by `ImdsMembership`, failure by `ImdsFail` |
| `Inventory.WalkMeetsMissingKey` | ec2_private.py:111-113 | a raising lookup anywhere in the walk makes the whole result empty |
| `Inventory.ImdsResultMembership` | ec2_private.py:102-109 | an id is in the result exactly when the walk completes and an instance with that id has metadata options with hop limit 1 |
| `Inventory.ImdsResult` | ec2_private.py:102-113 | the list is never longer than the number of listed instances, and is empty when none are listed; its contents are stated by `ImdsResultMembership` |
| `Inventory.ImdsResultFails` | ec2_private.py:111-113 | a failed call, a missing `Reservations` or a reservation without `Instances` gives the empty list |
| `Inventory.TwoReservations` | ec2_private.py:39-45 | for two reservations with instances at 10.0.0.5 and at 10.0.1.9/3.3.3.3, the private list is the two private addresses in order and the public list is 3.3.3.3 |
| `Inventory.HopLimits` | ec2_private.py:102-109 | an instance with hop limit 1 is listed and one with hop limit 2 is not |

## Left out

- PDF reading (`tabula.read_pdf`) is a parameter. The model does not say which tables a PDF yields; each such table is a rectangular grid of cells.
- The boto3 session, the client and `describe_instances` (ec2_private.py:25-36) are network access. They are one parameter: a response or a failure. Pagination is not handled in the source either; it makes a single call.
- The error messages shown through `st.error` (ec2_private.py:48, 79, 112) are left out. Only the empty result is modelled.
- The Streamlit user interface of both files is left out: upload, buttons, charts, the Excel download and the temporary file (app.py:55-132; ec2_private.py:115-196).
  - This includes the IMDSv1 display branch at ec2_private.py:185, which joins `public_ips`; that name is assigned only in the public-IP branch (ec2_private.py:154), and a Streamlit button is true only in the rerun its own click starts, so with a non-empty IMDSv1 list line 185 raises UnboundLocalError and no download is offered.
- The `get_sso_token` stub and the `regions` list (ec2_private.py:6-18) are not used by the modelled functions.
- Cells are strings, non-negative integers or missing. Floats and negative numbers that the extractor may produce are not modelled, and neither is Money of their `str` forms.
- Python's `\d` also matches non-ASCII decimal digits, and `$` also matches before a trailing newline. The model uses ASCII digits and an exact end of string.
- pandas keeps the page row indexes through the stack, so index labels repeat. Row indexes are not modelled: a frame's rows are a sequence.
- The `Amount` and `Layer` columns become float columns in pandas, because missing values are NaN. The model keeps integer cells and missing cells.
- Report.DeriveColumns: the read-back of `Amount` and `Layer` is stated only when neither label already occurs twice in the relabelled frame. With a duplicated label, reading back is an ambiguity error.
