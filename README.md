# Web crawler configuration and seed loading, in Dafny

This project models the live, non-GUI logic of a small Python web crawler:

- the CSV helper (`CSVReader`) that turns a seed file into site records and appends
  extracted items to an output file;
- the crawl manager (`CrawlManager`) that builds one depth-0 crawl controller per site;
- the configuration window's logic (`MainClass`), which validates the two numeric
  fields, imports the seed file and hands the records to a manager.

Modules:

| file | module | what it holds |
|---|---|---|
| `wrappers.dfy` | `Wrappers` | `Option` |
| `settings.dfy` | `Settings` | the run configuration record |
| `py_strings.dfy` | `PyStrings` | the parts of Python's `str` the crawler uses: `strip()`, `replace()`, `isdigit()` and `int()` |
| `csv_reader.dfy` | `CsvReader` | the two-pass `read` (imperative `Read` over a `seq`, specified by the function `ReadSites`), and the cleaning, line building and append of `append_to_csv` (the class `CsvFile`) |
| `crawl_manager.dfy` | `Managers` | the class `CrawlManager` with its `controllers` field, and `create_controllers` |
| `main.dfy` | `App` | `create_config`, and the class `MainClass` with `import_csv` and `start_process` |

How the modelled behaviour reads:

- **First pass.** `read` keeps a row when its site number and URL are both non-empty
  after `strip()`. It stores them untrimmed, with seven empty lists.
- **Second pass.** After `file.seek(0)` the same `DictReader` starts again at the top
  of the file. So the second pass first sees the header line as a data row, then every
  data row. The model makes that row explicit (`CsvReader.HeaderRow`) and proves that it
  adds nothing, because each cell equals its column name.
- **Filter lists.** Whitelisted words go only to the site whose id equals the row's
  trimmed `URL # Number 2`. The other six lists go to every site, so all sites end
  with identical copies of those lists.
- **Cleaning.** `append_to_csv` replaces newlines and carriage returns by spaces. It
  then does a single left-to-right `replace("  ", " ")` pass, which halves runs of
  spaces rather than collapsing them, and then `strip()`.
- **Quotes.** Quotes in the fifth field are doubled.
- **Header.** The header is written only when the file did not exist.

Two behaviours a reader might expect do not hold in the code, and the model keeps the
code's behaviour:

- **Zero is accepted.** `create_config` only checks `isdigit()`, so a maximum depth or
  timeout of `"0"` is accepted; nothing rejects non-positive values
  (`App.ZeroDepthAccepted`).
- **Spaces are halved, not collapsed.** After newlines become spaces, the single
  `replace("  ", " ")` pass turns a run of k spaces into ⌈k/2⌉ spaces, not one
  (`PyStrings.HalveSpaceRun`, `CsvReader.SanitizeHalvesRuns`).

## Model

| member | source | states |
|---|---|---|
| `PyStrings.IsSpace` | src/Utils/CSVReader.py:24 | defines the characters Python's `str.isspace()` accepts, which `strip()` removes |
| `PyStrings.TrimLeft` | src/Utils/CSVReader.py:24 | defines `lstrip()`: drop leading whitespace one character at a time |
| `PyStrings.TrimRight` | src/Utils/CSVReader.py:24 | defines `rstrip()`: drop trailing whitespace one character at a time |
| `PyStrings.Strip` | src/Utils/CSVReader.py:81 | defines `strip()` as `rstrip()` after `lstrip()` |
| `PyStrings.ReplaceAll` | src/Utils/CSVReader.py:77-79 | defines `str.replace`: scan left to right, replace each non-overlapping occurrence, resume after it |
| `PyStrings.Doubled` | src/Utils/CSVReader.py:88 | defines quote doubling character by character |
| `PyStrings.IsDigits` | src/Main.py:78 | defines `str.isdigit()` over ASCII: non-empty and only `0`-`9` |
| `PyStrings.DecimalValue` | src/Main.py:84-85 | defines `int()` of a digit string, most significant digit first |
| `PyStrings.TrimLeftSpec` | src/Utils/CSVReader.py:24 | `lstrip()` removes exactly the leading whitespace: the result is a suffix that does not start with whitespace, and everything removed is whitespace |
| `PyStrings.TrimRightSpec` | src/Utils/CSVReader.py:24 | `rstrip()` removes exactly the trailing whitespace |
| `PyStrings.StripSpec` | src/Utils/CSVReader.py:24 | `strip()` is no longer than its input, has no whitespace at either end, uses only the input's characters, and is empty exactly when the input is all whitespace (the truthiness test of the first pass) |
| `PyStrings.StripTrimmed` | src/Utils/CSVReader.py:81 | a string with no whitespace at either end is its own strip |
| `PyStrings.StripIdempotent` | src/Utils/CSVReader.py:43-46 | stripping twice is stripping once |
| `PyStrings.ReplaceCharAt` | src/Utils/CSVReader.py:77-78 | replacing one character by another keeps the length and changes exactly the positions holding that character |
| `PyStrings.ReplaceAllChars` | src/Utils/CSVReader.py:79 | every character of `replace`'s result comes from the input or the replacement |
| `PyStrings.ReplaceAllShrinks` | src/Utils/CSVReader.py:79 | a replacement no longer than its pattern never lengthens the string |
| `PyStrings.HalveSpaceRun` | src/Utils/CSVReader.py:79 | one non-overlapping left-to-right pass of `replace("  ", " ")` turns a run of k spaces into ⌈k/2⌉ spaces |
| `PyStrings.PairOfSpaces` | src/Utils/CSVReader.py:79 | two leading spaces become one, and the scan resumes after them |
| `PyStrings.LoneSpace` | src/Utils/CSVReader.py:79 | a single space before a non-space is kept |
| `PyStrings.HalveSpaceRunStep` | src/Utils/CSVReader.py:79 | two more spaces in front of a run add one space to its halved form |
| `PyStrings.NonSpaceThrough` | src/Utils/CSVReader.py:79 | a non-space character passes through the space pass unchanged |
| `PyStrings.ReplaceQuotesDoubles` | src/Utils/CSVReader.py:88 | `replace('"', '""')` writes every `"` twice and keeps every other character |
| `PyStrings.UndoubleDoubled` | src/Utils/CSVReader.py:88 | doubling every `"` can be undone: undoubling recovers the input |
| `PyStrings.DecimalRoundTrip` | src/Main.py:84-85 | `int()` of a number's decimal rendering is that number |
| `CsvReader.Keep` | src/Utils/CSVReader.py:24 | defines the first pass's guard: the stripped site number and the stripped URL are both non-empty |
| `CsvReader.NewSite` | src/Utils/CSVReader.py:25-35 | defines the record built for a kept row: id and URL as read, seven empty lists |
| `CsvReader.Seeds` | src/Utils/CSVReader.py:23-36 | defines the first pass: the records of the kept rows, appended in row order |
| `CsvReader.HeaderRow` | src/Utils/CSVReader.py:39-42 | defines the header line re-read after `file.seek(0)`: every cell holds its column's name |
| `CsvReader.Accepted` | src/Utils/CSVReader.py:45-58 | defines one list's guard: the cell is not blank once stripped and is not the column's own name |
| `CsvReader.Applies` | src/Utils/CSVReader.py:43-46 | defines when a row appends to a site's list: the guard holds and, for whitelisted words only, the stripped `URL # Number 2` equals the site's id |
| `CsvReader.Entry` | src/Utils/CSVReader.py:45-58 | defines what one row appends to one list of one site: the stripped cell, or nothing |
| `CsvReader.UpdateSite` | src/Utils/CSVReader.py:44-58 | defines one row applied to one site: each of the seven lists gets its entry |
| `CsvReader.Collected` | src/Utils/CSVReader.py:42-58 | defines what a sequence of rows appends to one list of a site, in row order |
| `CsvReader.Header` | src/Utils/CSVReader.py:74 | defines the header row `from, page, depth, tag, string` |
| `CsvReader.Field` | src/Utils/CSVReader.py:84-87 | defines `data.get(key, "")` |
| `CsvReader.AfterAppend` | src/Utils/CSVReader.py:92-98 | defines the file after one append: the header first only when the file did not exist, then the line |
| `CsvReader.SeedsAppend` | src/Utils/CSVReader.py:23-36 | the first pass over `a + b` yields the records of `a` followed by those of `b` |
| `CsvReader.SeedsSnoc` | src/Utils/CSVReader.py:23-36 | one more row adds its record after all earlier records exactly when its stripped site number and URL are both non-empty |
| `CsvReader.SeedsAround` | src/Utils/CSVReader.py:23-36 | a row between other rows yields a record exactly when its stripped site number and URL are both non-empty, and that record sits between the records of the earlier and the later rows |
| `CsvReader.SeedsAreNew` | src/Utils/CSVReader.py:25-35 | at most one record per row; every record has a non-blank id and URL and seven empty lists |
| `CsvReader.UpdateSiteLists` | src/Utils/CSVReader.py:44-58 | one row of the inner loop keeps a site's id and URL and appends to each list exactly that list's entry for the row |
| `CsvReader.ApplyRow` | src/Utils/CSVReader.py:44 | one row of the second pass keeps the number of sites |
| `CsvReader.SecondPass` | src/Utils/CSVReader.py:42-58 | the second pass never adds or removes a site record |
| `CsvReader.ReadSites` | src/Utils/CSVReader.py:11-65 | `read` returns exactly one record per row kept by the first pass |
| `CsvReader.SecondPassAppends` | src/Utils/CSVReader.py:42-58 | after the second pass every record keeps its id and URL, and each list is the old list followed by what the rows collected for it, in row order |
| `CsvReader.CollectedAppend` | src/Utils/CSVReader.py:42 | what rows `a + b` collect is what `a` collects, then what `b` collects |
| `CsvReader.HeaderContributesNothing` | src/Utils/CSVReader.py:38-58 | the header line re-read after `file.seek(0)` appends nothing to any list |
| `CsvReader.SharedListsIgnoreId` | src/Utils/CSVReader.py:47-58 | the tag, URL, trim and proxy lists do not depend on the site's id |
| `CsvReader.CollectedTrimmed` | src/Utils/CSVReader.py:45-58 | every appended value is non-empty and already stripped |
| `CsvReader.UntrimmedIdGetsNoWords` | src/Utils/CSVReader.py:43-46 | a site id with surrounding whitespace never equals the stripped `URL # Number 2`, so that site gets no whitelisted words |
| `CsvReader.ReadSitesContents` | src/Utils/CSVReader.py:11-65 | record m of `read`'s result is the m-th kept row's record, with its id and URL as read, and each list holds exactly the values the data rows contribute |
| `CsvReader.ReadSitesShareLists` | src/Utils/CSVReader.py:47-58 | all sites end with identical tag, URL, trim and proxy lists |
| `CsvReader.AppendFilters` | src/Utils/CSVReader.py:45-58 | the seven guarded appends of the inner loop, for one site, equal one row applied to that site |
| `CsvReader.AppendAccepted` | src/Utils/CSVReader.py:47-58 | one guarded append adds the stripped cell exactly when it is not blank and is not the column's own name |
| `CsvReader.FirstPass` | src/Utils/CSVReader.py:23-36 | the first loop of `read` builds exactly the first pass's records, in row order |
| `CsvReader.UpdateEverySite` | src/Utils/CSVReader.py:44-58 | the inner loop of the second pass updates every site in place, equal to one row applied to all sites |
| `CsvReader.Read` | src/Utils/CSVReader.py:11-65 | the two loops of `read`, including the nested in-place update of every site per row, return exactly `ReadSites(rows)` |
| `CsvReader.Sanitize` | src/Utils/CSVReader.py:75-81 | the cleaned string holds no `\n` or `\r`, has no whitespace at either end, and is no longer than the input |
| `CsvReader.SanitizeHalvesRuns` | src/Utils/CSVReader.py:79 | a run of four spaces between two letters is cleaned to two spaces, not one |
| `CsvReader.OutputLine` | src/Utils/CSVReader.py:74-89 | a line exists exactly when `data` has a "string" entry; it has five fields; the first four are `from`, `page`, `depth` and `tag` with `""` as default; the fifth is the cleaned string with every `"` doubled, so undoubling it gives the cleaned string back, and it holds no line breaks |
| `CsvReader.AppendsToExisting` | src/Utils/CSVReader.py:92-98 | appending lines to an existing file adds exactly those lines, in order, with no header |
| `CsvReader.HeaderWrittenOnce` | src/Utils/CSVReader.py:92-98 | appending lines to a file that does not exist yields the header once, then the lines |
| `CsvReader.CsvFile.constructor` | src/Utils/CSVReader.py:92 | a file that does not exist has no rows |
| `CsvReader.CsvFile.AppendToCsv` | src/Utils/CSVReader.py:67-103 | without "string", nothing is written; otherwise the file exists afterwards and holds its old rows (or the header, when it was new) followed by the line |
| `Managers.HasUrl` | src/Managers/CrawlManager.py:24-25 | defines `row.get("url")` being truthy: present and non-empty, not stripped |
| `Managers.ControllersFor` | src/Managers/CrawlManager.py:23-31 | defines the controllers built for rows: one `(url, 0, config)` per row with a truthy url, in row order |
| `Managers.ControllersForAppend` | src/Managers/CrawlManager.py:23-31 | controllers for `a + b` are those for `a` followed by those for `b`, so a second call appends the same controllers again |
| `Managers.ControllersAround` | src/Managers/CrawlManager.py:23-31 | a row between other rows yields a controller exactly when its `url` is present and non-empty; that controller has the row's URL, depth 0 and the manager's configuration, in row order |
| `Managers.ControllersStartAtDepthZero` | src/Managers/CrawlManager.py:30 | every controller has depth 0, the manager's configuration and a non-empty URL |
| `Managers.RowsWithUrlSnoc` | src/Managers/CrawlManager.py:23-27 | one more row adds its own position to the rows with a truthy `url` exactly when its `url` is truthy |
| `Managers.ControllerCount` | src/Managers/CrawlManager.py:23-31 | the number of controllers built is the number of rows with a truthy `url` |
| `Managers.BlankUrlAccepted` | src/Managers/CrawlManager.py:24-25 | a URL of spaces is not stripped and still gets a controller |
| `Managers.CrawlManager.constructor` | src/Managers/CrawlManager.py:7-15 | a new manager keeps the given configuration and has no controllers |
| `Managers.CrawlManager.CreateControllers` | src/Managers/CrawlManager.py:17-32 | the controllers list becomes its old contents followed by one controller per row with a truthy `url`, in row order |
| `App.CreateConfig` | src/Main.py:71-90 | a configuration exists exactly when both texts are non-empty ASCII digit strings; its depth and timeout are their decimal values; the four flags are copied |
| `App.ConfigRoundTrip` | src/Main.py:78-89 | typing any two numbers in decimal yields a configuration holding exactly those numbers and flags |
| `App.NegativeOrEmptyRejected` | src/Main.py:78-81 | `-1` and `""` are rejected in either field |
| `App.ZeroDepthAccepted` | src/Main.py:78-85 | `"0"` is accepted and gives maximum depth 0 |
| `App.AsRows` | src/Managers/CrawlManager.py:23-24 | each site record is handed to the manager as one row |
| `App.AllHaveUrls` | src/Managers/CrawlManager.py:23-31 | records whose URLs are all non-empty each give one controller, in order, with that record's URL |
| `App.ImportedSitesAllCrawled` | src/Utils/CSVReader.py:24 | every record `read` returns has a non-blank URL, so the manager builds exactly one depth-0 controller per record, in file order |
| `App.MainClass.constructor` | src/Main.py:19-23 | a new window has no configuration, no data and no manager |
| `App.MainClass.ImportCsvAsWritten` | src/Main.py:92-99 | the configuration is stored; when it is valid, building the reader raises; the data and the manager never change |
| `App.MainClass.ImportCsv` | src/Main.py:92-125 | the configuration is stored; an invalid one returns with the data unchanged; a cancelled dialog or a failed read keeps the data; otherwise the data is `read`'s records |
| `App.MainClass.StartProcess` | src/Main.py:127-142 | nothing starts when there is no data or no record; otherwise a new manager with the current configuration holds one controller per record with a URL |
| `App.ImportAsWrittenThenStart` | src/Main.py:99 | after the import as written, Start never starts a crawl |
| `App.ImportThenStart` | src/Main.py:92-142 | after the corrected import of a file with at least one site, Start runs with one controller per site record |

## Left out

- The Tk window is not modelled: widgets, file dialog and message boxes. The two entry
  texts and four check boxes are parameters. The dialog and the read's outcome are the
  `App.FileChoice` value.
- Logging (`Logger`) has no logic to model and is omitted.
- File I/O and the `csv` module are not modelled:
  - opening files, and `utf-8-sig` decoding;
  - `DictReader` tokenising: a row is already a map from column to text;
  - the quoting `csv.writer` adds on top of the explicit quote doubling;
  - `os.path.exists`, which is the `present` field of `CsvFile`.
- Rows with a missing column are not modelled. `.strip()` on `None` would raise there,
  and that counts as a failed read (`App.FileChoice.ReadFailed`).
- `isdigit()` and `int()` are modelled over ASCII digits only. Unicode digits are not
  modelled.
- `start_crawling`'s `asyncio.gather` over the controllers' `crawl` coroutines is not
  modelled. The controller class is entirely commented out, so `App.MainClass.StartProcess`
  stops once the controllers are built.
- The controller class, and the failing import at src/Managers/CrawlManager.py:3, are
  not modelled.
- `MainClass.config` starts as `{}` in the source; the model uses `None`. Both are
  falsy, and nothing reads it before `import_csv` assigns it.
- `App.AsRow` carries only a record's id and URL to the manager. `create_controllers`
  reads only `url`.
- `CsvReader.Read` (through `CsvReader.UpdateEverySite`) updates the records as values
  (`data[j := ...]`). The source appends to each record's own lists in place. Every
  record gets fresh lists, so no list is shared and the results agree.
- `CsvReader.OutputLine` takes `append_to_csv`'s `Dict[str, Any]` as a
  `map<string, string>`. Values that are not strings (a `depth` given as an int, say)
  are not covered.

## Findings

| source | as written | input that shows it | evidently intended | confidence | as-written member | corrected member |
|---|---|---|---|---|---|---|
| src/Main.py:99 | `import_csv` builds the reader with a `config` keyword argument, but the reader's constructor (src/Utils/CSVReader.py:7) takes none. The TypeError is raised outside the `try`, before the file dialog, so no file is ever imported | depth `"2"`, timeout `"30"`, any file | build the reader without arguments, read the chosen file into `data`, and let Start hand the records to a manager | high, not executed | `App.MainClass.ImportCsvAsWritten`, `App.ImportAsWrittenThenStart` | `App.MainClass.ImportCsv`, `App.ImportThenStart` |
