/** The seed-site reader and the output appender of the crawler's CSV helper.

    The file itself is not modelled: `Read` takes the data rows `csv.DictReader` would
    yield, each a map from column name to cell text, and `CsvFile` holds the written
    file as a sequence of rows. */
module CsvReader {
  import opened Wrappers
  import opened PyStrings

  /** The seven filter lists of a site record. */
  datatype ListKind =
    | WhiteListedWords | WhiteListedTags | BlackListedTags
    | WhiteListedUrls | BlackListedUrls | TrimUrls | Proxies

  /** The columns `read` looks up: the site number, the URL, the site number a
      whitelisted word belongs to, and one column per filter list. */
  datatype Column = IdColumn | UrlColumn | MatchIdColumn | ListColumn(kind: ListKind)

  /** The header text of each column. */
  function ColumnName(c: Column): string {
    match c
    case IdColumn => "URL # Number"
    case UrlColumn => "URL"
    case MatchIdColumn => "URL # Number 2"
    case ListColumn(WhiteListedWords) => "White Listed Words"
    case ListColumn(WhiteListedTags) => "White Listed Tags"
    case ListColumn(BlackListedTags) => "Black Listed Tags"
    case ListColumn(WhiteListedUrls) => "White Listed URLs"
    case ListColumn(BlackListedUrls) => "Black Listed URLs"
    case ListColumn(TrimUrls) => "Trim URLs"
    case ListColumn(Proxies) => "Proxies"
  }

  /** One row as `csv.DictReader` yields it: the cell text of every column. */
  type Row = Column -> string

  /** The dictionary `read` builds per site. */
  datatype SiteRecord = SiteRecord(
    id: string,
    url: string,
    whiteListedWords: seq<string>,
    whiteListedTags: seq<string>,
    blackListedTags: seq<string>,
    whiteListedUrls: seq<string>,
    blackListedUrls: seq<string>,
    trimUrls: seq<string>,
    proxies: seq<string>)
  {
    function List(k: ListKind): seq<string> {
      match k
      case WhiteListedWords => whiteListedWords
      case WhiteListedTags => whiteListedTags
      case BlackListedTags => blackListedTags
      case WhiteListedUrls => whiteListedUrls
      case BlackListedUrls => blackListedUrls
      case TrimUrls => trimUrls
      case Proxies => proxies
    }

  }

  // ---------------------------------------------------------------------------
  // First pass: one record per row with a site number and a URL.

  /** `row["URL # Number"].strip()` and `row["URL"].strip()` are both non-empty. */
  predicate Keep(row: Row)
  {
    Strip(row(IdColumn)) != [] && Strip(row(UrlColumn)) != []
  }

  /** The record made for a kept row: id and URL as read (not trimmed), lists empty. */
  function NewSite(row: Row): SiteRecord
  {
    SiteRecord(row(IdColumn), row(UrlColumn), [], [], [], [], [], [], [])
  }

  /** The records the first pass has built after `rows`. */
  function Seeds(rows: seq<Row>): seq<SiteRecord>
  {
    if rows == [] then []
    else
      var last := rows[|rows| - 1];
      Seeds(rows[..|rows| - 1]) + (if Keep(last) then [NewSite(last)] else [])
  }

  /** The first pass over `a + b` is the first pass over `a` followed by the one over `b`. */
  lemma {:induction false} SeedsAppend(a: seq<Row>, b: seq<Row>)
    ensures Seeds(a + b) == Seeds(a) + Seeds(b)
    decreases |b|
  {
    if b == [] {
      assert a + b == a;
    } else {
      var b' := b[..|b| - 1];
      assert (a + b)[..|a + b| - 1] == a + b';
      assert (a + b)[|a + b| - 1] == b[|b| - 1];
      SeedsAppend(a, b');
    }
  }

  /** One more row adds its record, if it is kept, after the others. */
  lemma SeedsSnoc(rows: seq<Row>, row: Row)
    ensures Seeds(rows + [row]) == Seeds(rows) + (if Keep(row) then [NewSite(row)] else [])
  {
    var all := rows + [row];
    assert all[..|all| - 1] == rows;
    assert all[|all| - 1] == row;
  }

  /** Row `row` yields a record exactly when its trimmed site number and URL are both
      non-empty; that record comes after the records of the rows before it and before
      those of the rows after it. */
  lemma SeedsAround(before: seq<Row>, row: Row, after: seq<Row>)
    ensures Seeds(before + [row] + after) ==
      Seeds(before) + (if Keep(row) then [NewSite(row)] else []) + Seeds(after)
  {
    SeedsAppend(before + [row], after);
    SeedsSnoc(before, row);
  }

  /** Every record of the first pass has a site number and a URL, and empty lists. */
  lemma {:induction false} SeedsAreNew(rows: seq<Row>)
    ensures |Seeds(rows)| <= |rows|
    ensures forall m :: 0 <= m < |Seeds(rows)| ==>
      Strip(Seeds(rows)[m].id) != [] && Strip(Seeds(rows)[m].url) != []
      && forall k :: Seeds(rows)[m].List(k) == []
    decreases |rows|
  {
    if rows != [] {
      var init, last := rows[..|rows| - 1], rows[|rows| - 1];
      SeedsAreNew(init);
      var seeds := Seeds(rows);
      assert seeds == Seeds(init) + (if Keep(last) then [NewSite(last)] else []);
      forall m | 0 <= m < |seeds|
        ensures Strip(seeds[m].id) != [] && Strip(seeds[m].url) != []
        ensures forall k :: seeds[m].List(k) == []
      {
        if m < |Seeds(init)| {
          assert seeds[m] == Seeds(init)[m];
        } else {
          assert seeds[m] == NewSite(last);
        }
      }
    }
  }

  // ---------------------------------------------------------------------------
  // Second pass: filter values appended to the records.

  /** The cell of list `k` passes the guard: non-empty once trimmed, and not the column's
      own name (which is what the header line holds). */
  predicate Accepted(row: Row, k: ListKind)
  {
    var v := row(ListColumn(k));
    Strip(v) != [] && v != ColumnName(ListColumn(k))
  }

  /** Row `row` appends to list `k` of a site with id `id`: words only go to the site
      whose id equals the row's trimmed `URL # Number 2`, the other lists go to all sites. */
  predicate Applies(row: Row, id: string, k: ListKind)
  {
    Accepted(row, k) && (k == WhiteListedWords ==> Strip(row(MatchIdColumn)) == id)
  }

  /** What one row appends to list `k` of a site with id `id`. */
  function Entry(row: Row, id: string, k: ListKind): seq<string>
  {
    if Applies(row, id, k) then [Strip(row(ListColumn(k)))] else []
  }

  /** The body of the inner loop: one row applied to one site. */
  function UpdateSite(site: SiteRecord, row: Row): SiteRecord
  {
    SiteRecord(site.id, site.url,
      site.whiteListedWords + Entry(row, site.id, WhiteListedWords),
      site.whiteListedTags + Entry(row, site.id, WhiteListedTags),
      site.blackListedTags + Entry(row, site.id, BlackListedTags),
      site.whiteListedUrls + Entry(row, site.id, WhiteListedUrls),
      site.blackListedUrls + Entry(row, site.id, BlackListedUrls),
      site.trimUrls + Entry(row, site.id, TrimUrls),
      site.proxies + Entry(row, site.id, Proxies))
  }

  /** One row of the second pass appends its entries to a site's lists and keeps the
      site's id and URL. */
  lemma UpdateSiteLists(site: SiteRecord, row: Row)
    ensures UpdateSite(site, row).id == site.id && UpdateSite(site, row).url == site.url
    ensures forall k :: UpdateSite(site, row).List(k) == site.List(k) + Entry(row, site.id, k)
  {
    var r := UpdateSite(site, row);
    forall k ensures r.List(k) == site.List(k) + Entry(row, site.id, k) {
      match k {
        case WhiteListedWords =>
        case WhiteListedTags =>
        case BlackListedTags =>
        case WhiteListedUrls =>
        case BlackListedUrls =>
        case TrimUrls =>
        case Proxies =>
      }
    }
  }

  /** One row of the second pass applied to every site. */
  function ApplyRow(sites: seq<SiteRecord>, row: Row): (r: seq<SiteRecord>)
    ensures |r| == |sites|
  {
    seq(|sites|, i requires 0 <= i < |sites| => UpdateSite(sites[i], row))
  }

  /** The records after the second pass has gone through `rs`. */
  function SecondPass(sites: seq<SiteRecord>, rs: seq<Row>): (r: seq<SiteRecord>)
    ensures |r| == |sites|
  {
    if rs == [] then sites
    else ApplyRow(SecondPass(sites, rs[..|rs| - 1]), rs[|rs| - 1])
  }

  /** The header line read back as a data row: every cell holds its column's name. */
  function HeaderRow(): Row {
    c => ColumnName(c)
  }

  /** What `read` returns for a file whose data rows are `rows`: after `file.seek(0)`
      the second pass reads the header line again, then every data row. */
  function ReadSites(rows: seq<Row>): (r: seq<SiteRecord>)
    ensures |r| == |Seeds(rows)|
  {
    SecondPass(Seeds(rows), [HeaderRow()] + rows)
  }

  /** The values `rs` append, in order, to list `k` of a site with id `id`. */
  function Collected(rs: seq<Row>, id: string, k: ListKind): seq<string>
  {
    if rs == [] then []
    else Collected(rs[..|rs| - 1], id, k) + Entry(rs[|rs| - 1], id, k)
  }

  /** The second pass keeps every record, its id and its URL, and only appends to lists. */
  lemma {:induction false} SecondPassAppends(sites: seq<SiteRecord>, rs: seq<Row>, m: nat)
    requires m < |sites|
    ensures |SecondPass(sites, rs)| == |sites|
    ensures SecondPass(sites, rs)[m].id == sites[m].id
    ensures SecondPass(sites, rs)[m].url == sites[m].url
    ensures forall k :: SecondPass(sites, rs)[m].List(k) == sites[m].List(k) + Collected(rs, sites[m].id, k)
    decreases |rs|
  {
    if rs != [] {
      var init := rs[..|rs| - 1];
      SecondPassAppends(sites, init, m);
      var before := SecondPass(sites, init)[m];
      var after := SecondPass(sites, rs)[m];
      assert after == UpdateSite(before, rs[|rs| - 1]);
      UpdateSiteLists(before, rs[|rs| - 1]);
      assert rs[..|rs| - 1] == init;
    }
  }

  /** The values collected over `a + b` are those over `a`, then those over `b`. */
  lemma {:induction false} CollectedAppend(a: seq<Row>, b: seq<Row>, id: string, k: ListKind)
    ensures Collected(a + b, id, k) == Collected(a, id, k) + Collected(b, id, k)
    decreases |b|
  {
    if b == [] {
      assert a + b == a;
    } else {
      var b' := b[..|b| - 1];
      assert (a + b)[..|a + b| - 1] == a + b';
      assert (a + b)[|a + b| - 1] == b[|b| - 1];
      CollectedAppend(a, b', id, k);
    }
  }

  /** The header line read back by the second pass appends nothing. */
  lemma HeaderContributesNothing(rows: seq<Row>, id: string, k: ListKind)
    ensures Collected([HeaderRow()] + rows, id, k) == Collected(rows, id, k)
  {
    var h := [HeaderRow()];
    CollectedAppend(h, rows, id, k);
    assert h[..0] == [];
    assert !Accepted(HeaderRow(), k);
  }

  /** Lists other than the whitelisted words do not depend on the site's id. */
  lemma {:induction false} SharedListsIgnoreId(rs: seq<Row>, id1: string, id2: string, k: ListKind)
    requires k != WhiteListedWords
    ensures Collected(rs, id1, k) == Collected(rs, id2, k)
    decreases |rs|
  {
    if rs != [] {
      SharedListsIgnoreId(rs[..|rs| - 1], id1, id2, k);
    }
  }

  /** Every appended value is non-empty and already trimmed. */
  lemma {:induction false} CollectedTrimmed(rs: seq<Row>, id: string, k: ListKind)
    ensures forall i :: 0 <= i < |Collected(rs, id, k)| ==>
      Collected(rs, id, k)[i] != [] && Strip(Collected(rs, id, k)[i]) == Collected(rs, id, k)[i]
    decreases |rs|
  {
    if rs != [] {
      var last := rs[|rs| - 1];
      CollectedTrimmed(rs[..|rs| - 1], id, k);
      StripSpec(last(ListColumn(k)));
      StripIdempotent(last(ListColumn(k)));
    }
  }

  /** A site whose id carries surrounding whitespace never matches the trimmed
      `URL # Number 2`, so it gets no whitelisted words. */
  lemma {:induction false} UntrimmedIdGetsNoWords(rs: seq<Row>, id: string)
    requires Strip(id) != id
    ensures Collected(rs, id, WhiteListedWords) == []
    decreases |rs|
  {
    if rs != [] {
      var last := rs[|rs| - 1];
      UntrimmedIdGetsNoWords(rs[..|rs| - 1], id);
      StripIdempotent(last(MatchIdColumn));
    }
  }

  /** What `read` returns: one record per kept row, in row order, with the id and URL as
      read; each list holds exactly the values the data rows contribute to it. */
  lemma ReadSitesContents(rows: seq<Row>, m: nat)
    requires m < |Seeds(rows)|
    ensures |ReadSites(rows)| == |Seeds(rows)|
    ensures ReadSites(rows)[m].id == Seeds(rows)[m].id
    ensures ReadSites(rows)[m].url == Seeds(rows)[m].url
    ensures forall k :: ReadSites(rows)[m].List(k) == Collected(rows, Seeds(rows)[m].id, k)
  {
    var seeds := Seeds(rows);
    SecondPassAppends(seeds, [HeaderRow()] + rows, m);
    SeedsAreNew(rows);
    forall k ensures ReadSites(rows)[m].List(k) == Collected(rows, seeds[m].id, k) {
      HeaderContributesNothing(rows, seeds[m].id, k);
      assert seeds[m].List(k) == [];
    }
  }

  /** Every site ends with the same tag, URL, trim and proxy lists. */
  lemma ReadSitesShareLists(rows: seq<Row>, m1: nat, m2: nat, k: ListKind)
    requires m1 < |Seeds(rows)| && m2 < |Seeds(rows)|
    requires k != WhiteListedWords
    ensures m1 < |ReadSites(rows)| && m2 < |ReadSites(rows)|
    ensures ReadSites(rows)[m1].List(k) == ReadSites(rows)[m2].List(k)
  {
    ReadSitesContents(rows, m1);
    ReadSitesContents(rows, m2);
    SharedListsIgnoreId(rows, Seeds(rows)[m1].id, Seeds(rows)[m2].id, k);
  }

  /** One guarded append: the stripped value goes on the list when it is not blank and
      is not the column's own name. */
  method AppendAccepted(list: seq<string>, row: Row, k: ListKind) returns (r: seq<string>)
    ensures r == list + (if Accepted(row, k) then [Strip(row(ListColumn(k)))] else [])
  {
    var value := row(ListColumn(k));
    r := list;
    if Strip(value) != [] && value != ColumnName(ListColumn(k)) {
      r := r + [Strip(value)];
    }
  }

  /** The inner loop's seven guarded appends for one site. */
  method AppendFilters(site: SiteRecord, row: Row, siteId: string) returns (s: SiteRecord)
    requires siteId == Strip(row(MatchIdColumn))
    ensures s == UpdateSite(site, row)
  {
    var words := site.whiteListedWords;
    if site.id == siteId {
      words := AppendAccepted(words, row, WhiteListedWords);
    }
    var whiteTags := AppendAccepted(site.whiteListedTags, row, WhiteListedTags);
    var blackTags := AppendAccepted(site.blackListedTags, row, BlackListedTags);
    var whiteUrls := AppendAccepted(site.whiteListedUrls, row, WhiteListedUrls);
    var blackUrls := AppendAccepted(site.blackListedUrls, row, BlackListedUrls);
    var trims := AppendAccepted(site.trimUrls, row, TrimUrls);
    var proxies := AppendAccepted(site.proxies, row, Proxies);
    s := SiteRecord(site.id, site.url, words, whiteTags, blackTags, whiteUrls, blackUrls, trims, proxies);
  }

  /** The first loop of `read`: one new record per kept row, appended in row order. */
  method FirstPass(rows: seq<Row>) returns (data: seq<SiteRecord>)
    ensures data == Seeds(rows)
  {
    data := [];
    for i := 0 to |rows|
      invariant data == Seeds(rows[..i])
    {
      var row := rows[i];
      if Strip(row(IdColumn)) != [] && Strip(row(UrlColumn)) != [] {
        data := data + [NewSite(row)];
      }
      assert rows[..i + 1][..i] == rows[..i];
    }
    assert rows[..|rows|] == rows;
  }

  /** The inner loop of the second pass: one row applied to every site, in place. */
  method UpdateEverySite(data: seq<SiteRecord>, row: Row) returns (updated: seq<SiteRecord>)
    ensures updated == ApplyRow(data, row)
  {
    var siteId := Strip(row(MatchIdColumn));
    updated := data;
    for j := 0 to |updated|
      invariant |updated| == |data|
      invariant forall m :: 0 <= m < j ==> updated[m] == UpdateSite(data[m], row)
      invariant forall m :: j <= m < |updated| ==> updated[m] == data[m]
    {
      var site := AppendFilters(updated[j], row, siteId);
      updated := updated[j := site];
    }
  }

  /** `CSVReader.read` over the file's data rows. */
  method Read(rows: seq<Row>) returns (data: seq<SiteRecord>)
    ensures data == ReadSites(rows)
  {
    data := FirstPass(rows);
    // `file.seek(0)`: the same reader starts over, so the header line comes back as a data row.
    var again := [HeaderRow()] + rows;
    ghost var seeds := data;
    for i := 0 to |again|
      invariant data == SecondPass(seeds, again[..i])
    {
      data := UpdateEverySite(data, again[i]);
      assert again[..i + 1][..i] == again[..i];
    }
    assert again[..|again|] == again;
  }

  // ---------------------------------------------------------------------------
  // Appending one extracted item to the output file.

  /** The header row written to a new file. */
  function Header(): seq<string> {
    ["from", "page", "depth", "tag", "string"]
  }

  /** `data.get(key, "")`. */
  function Field(data: map<string, string>, key: string): string {
    if key in data then data[key] else ""
  }

  /** The text cleaning of `append_to_csv`: newlines and carriage returns become spaces,
      one pass of `replace("  ", " ")`, then `strip()`. */
  function Sanitize(s: string): (r: string)
    ensures '\n' !in r && '\r' !in r
    ensures r != [] ==> !IsSpace(r[0]) && !IsSpace(r[|r| - 1])
    ensures |r| <= |s|
  {
    var a := ReplaceAll(s, "\n", " ");
    var b := ReplaceAll(a, "\r", " ");
    var c := ReplaceAll(b, "  ", " ");
    ReplaceCharAt(s, '\n', ' ');
    ReplaceCharAt(a, '\r', ' ');
    assert '\n' !in a && '\n' !in b && '\r' !in b;
    ReplaceAllChars(b, "  ", " ");
    ReplaceAllShrinks(b, "  ", " ");
    StripSpec(c);
    Strip(c)
  }

  /** The space pass halves a run of four spaces instead of collapsing it. */
  lemma SanitizeHalvesRuns()
    ensures Sanitize("a" + Spaces(4) + "b") == "a" + Spaces(2) + "b"
  {
    var s := "a" + Spaces(4) + "b";
    ReplaceCharAt(s, '\n', ' ');
    var a := ReplaceAll(s, "\n", " ");
    assert a == s;
    ReplaceCharAt(a, '\r', ' ');
    assert ReplaceAll(a, "\r", " ") == s;
    HalveSpaceRun(4, "b");
    NonSpaceThrough('a', Spaces(4) + "b");
    assert s == ['a'] + (Spaces(4) + "b");
    var c := "a" + Spaces(2) + "b";
    assert ReplaceAll("b", "  ", " ") == "b";
    assert ReplaceAll(s, "  ", " ") == c;
    StripTrimmed(c);
  }

  /** The row `append_to_csv` writes, or `None` when `data` has no "string" entry
      (the lookup raises before the file is touched). */
  function OutputLine(data: map<string, string>): (r: Option<seq<string>>)
    ensures r.Some? <==> "string" in data
    ensures r.Some? ==>
      |r.value| == |Header()|
      && r.value[..4] == [Field(data, "from"), Field(data, "page"), Field(data, "depth"), Field(data, "tag")]
      && r.value[4] == Doubled(Sanitize(data["string"]))
      && Undouble(r.value[4]) == Sanitize(data["string"])
      && '\n' !in r.value[4] && '\r' !in r.value[4]
  {
    if "string" !in data then None
    else
      var clean := Sanitize(data["string"]);
      UndoubleDoubled(clean);
      ReplaceQuotesDoubles(clean);
      ReplaceAllChars(clean, "\"", "\"\"");
      Some([Field(data, "from"), Field(data, "page"), Field(data, "depth"), Field(data, "tag"),
            ReplaceAll(clean, "\"", "\"\"")])
  }

  /** The rows of the file after appending `line`: the header comes first only when the
      file did not exist before. */
  function AfterAppend(existed: bool, rows: seq<seq<string>>, line: seq<string>): seq<seq<string>> {
    (if existed then rows else [Header()]) + [line]
  }

  /** The rows after appending each of `lines` in turn. */
  function AfterAppends(existed: bool, rows: seq<seq<string>>, lines: seq<seq<string>>): seq<seq<string>>
    decreases |lines|
  {
    if lines == [] then rows
    else AfterAppends(true, AfterAppend(existed, rows, lines[0]), lines[1..])
  }

  /** Appending to an existing file only adds the lines, in order. */
  lemma {:induction false} AppendsToExisting(rows: seq<seq<string>>, lines: seq<seq<string>>)
    ensures AfterAppends(true, rows, lines) == rows + lines
    decreases |lines|
  {
    if lines != [] {
      AppendsToExisting(rows + [lines[0]], lines[1..]);
      assert rows + [lines[0]] + lines[1..] == rows + lines;
    }
  }

  /** A file created by the first append holds the header once, then the lines. */
  lemma HeaderWrittenOnce(lines: seq<seq<string>>)
    requires lines != []
    ensures AfterAppends(false, [], lines) == [Header()] + lines
  {
    assert AfterAppend(false, [], lines[0]) == [Header(), lines[0]];
    AppendsToExisting([Header(), lines[0]], lines[1..]);
    assert [Header(), lines[0]] + lines[1..] == [Header()] + lines;
  }

  /** The output file as a sequence of rows. A file that does not exist has no rows. */
  class CsvFile {
    var present: bool
    var rows: seq<seq<string>>

    ghost predicate Valid()
      reads this
    {
      present || rows == []
    }

    constructor (present: bool, rows: seq<seq<string>>)
      requires present || rows == []
      ensures Valid() && this.present == present && this.rows == rows
    {
      this.present := present;
      this.rows := rows;
    }

    /** `CSVReader.append_to_csv`: fails (KeyError) without touching the file when `data`
        has no "string"; otherwise writes the header if the file is new, then the line. */
    method AppendToCsv(data: map<string, string>) returns (ok: bool)
      requires Valid()
      modifies this
      ensures Valid()
      ensures ok <==> "string" in data
      ensures !ok ==> present == old(present) && rows == old(rows)
      ensures ok ==> present && rows == AfterAppend(old(present), old(rows), OutputLine(data).value)
    {
      var line := OutputLine(data);
      if line.None? {
        return false;
      }
      var fileExists := present;
      if !fileExists {
        rows := rows + [Header()];
        present := true;
      }
      rows := rows + [line.value];
      ok := true;
    }
  }
}
