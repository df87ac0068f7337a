/** The configuration window: it validates the two numeric fields into a run
    configuration, imports a site file, and hands the imported sites to a crawl manager.
    The widgets are replaced by plain parameters. */
module App {
  import opened Wrappers
  import opened Settings
  import opened PyStrings
  import CsvReader
  import Managers

  /** `create_config`: both texts must be non-empty runs of ASCII digits; the four flags
      are copied as they are. Zero is accepted. */
  function CreateConfig(depthText: string, timeoutText: string, includeExternalSites: bool,
                        enableWhitelistUrl: bool, enableTrimUrl: bool, enableBlacklistUrl: bool): (r: Option<Config>)
    ensures r.Some? <==> IsDigits(depthText) && IsDigits(timeoutText)
    ensures r.Some? ==> r.value.depthMax == DecimalValue(depthText)
                        && r.value.loadTimeout == DecimalValue(timeoutText)
    ensures r.Some? ==> (r.value.includeExternalSites == includeExternalSites
                         && r.value.enableWhitelistUrl == enableWhitelistUrl
                         && r.value.enableTrimUrl == enableTrimUrl
                         && r.value.enableBlacklistUrl == enableBlacklistUrl)
  {
    if !IsDigits(depthText) || !IsDigits(timeoutText) then None
    else Some(Config(DecimalValue(depthText), DecimalValue(timeoutText), includeExternalSites,
                     enableWhitelistUrl, enableTrimUrl, enableBlacklistUrl))
  }

  /** Typing any two numbers in decimal gives back exactly those numbers. */
  lemma ConfigRoundTrip(depthMax: nat, loadTimeout: nat, ext: bool, wl: bool, trim: bool, bl: bool)
    ensures CreateConfig(DecimalString(depthMax), DecimalString(loadTimeout), ext, wl, trim, bl)
      == Some(Config(depthMax, loadTimeout, ext, wl, trim, bl))
  {
    DecimalRoundTrip(depthMax);
    DecimalRoundTrip(loadTimeout);
  }

  /** A sign or an empty field is not a digit string: `-1` and `""` are rejected in
      either position. */
  lemma NegativeOrEmptyRejected(other: string, ext: bool, wl: bool, trim: bool, bl: bool)
    ensures CreateConfig("-1", other, ext, wl, trim, bl) == None
    ensures CreateConfig(other, "-1", ext, wl, trim, bl) == None
    ensures CreateConfig("", other, ext, wl, trim, bl) == None
    ensures CreateConfig(other, "", ext, wl, trim, bl) == None
  {
    assert !IsDigit("-1"[0]);
  }

  /** `"0"` is accepted and gives a maximum depth of 0: there is no positivity check. */
  lemma ZeroDepthAccepted(timeoutText: string, ext: bool, wl: bool, trim: bool, bl: bool)
    requires IsDigits(timeoutText)
    ensures CreateConfig("0", timeoutText, ext, wl, trim, bl).Some?
    ensures CreateConfig("0", timeoutText, ext, wl, trim, bl).value.depthMax == 0
  {
    assert "0"[..0] == [];
  }

  /** What the file dialog and the read gave: no file chosen, a read that raised (the
      file could not be opened or lacks a column), or the file's data rows. */
  datatype FileChoice = Cancelled | ReadFailed | Picked(rows: seq<CsvReader.Row>)

  /** Why `import_csv` as written stops with an uncaught exception. */
  datatype ImportError = ReaderTakesNoConfig

  /** The dictionary a site record is to the crawl manager; only the "url" entry is read
      there, so the list entries are not carried. */
  function AsRow(site: CsvReader.SiteRecord): Managers.Row {
    map["id" := site.id, "url" := site.url]
  }

  function AsRows(sites: seq<CsvReader.SiteRecord>): (r: seq<Managers.Row>)
    ensures |r| == |sites|
  {
    seq(|sites|, i requires 0 <= i < |sites| => AsRow(sites[i]))
  }

  /** Every imported site has a URL with something other than whitespace in it, so the
      manager builds exactly one depth-0 controller per imported site, in file order. */
  lemma {:induction false} ImportedSitesAllCrawled(rows: seq<CsvReader.Row>, config: Option<Config>)
    ensures |Managers.ControllersFor(AsRows(CsvReader.ReadSites(rows)), config)| == |CsvReader.ReadSites(rows)|
    ensures forall m :: 0 <= m < |CsvReader.ReadSites(rows)| ==>
      Managers.ControllersFor(AsRows(CsvReader.ReadSites(rows)), config)[m]
        == Managers.Controller(CsvReader.ReadSites(rows)[m].url, 0, config)
  {
    var sites := CsvReader.ReadSites(rows);
    forall m | 0 <= m < |sites|
      ensures sites[m].url != ""
    {
      CsvReader.ReadSitesContents(rows, m);
      CsvReader.SeedsAreNew(rows);
      assert Strip(sites[m].url) != [];
    }
    AllHaveUrls(sites, config);
  }

  /** Sites whose URLs are all non-empty each give one controller, in order. */
  lemma {:induction false} AllHaveUrls(sites: seq<CsvReader.SiteRecord>, config: Option<Config>)
    requires forall m :: 0 <= m < |sites| ==> sites[m].url != ""
    ensures |Managers.ControllersFor(AsRows(sites), config)| == |sites|
    ensures forall m :: 0 <= m < |sites| ==>
      Managers.ControllersFor(AsRows(sites), config)[m] == Managers.Controller(sites[m].url, 0, config)
    decreases |sites|
  {
    if sites != [] {
      var n := |sites| - 1;
      var rows := AsRows(sites);
      assert rows[..n] == AsRows(sites[..n]);
      AllHaveUrls(sites[..n], config);
      assert Managers.HasUrl(rows[n]);
    }
  }

  /** `MainClass`: the configuration, the imported site records and the crawl manager. */
  class MainClass {
    var config: Option<Config>
    var data: Option<seq<CsvReader.SiteRecord>>
    var crawlManager: Managers.CrawlManager?

    /** A fresh window: no configuration, no data, no manager. */
    constructor ()
      ensures config == None && data == None && crawlManager == null
    {
      config := None;
      data := None;
      crawlManager := null;
    }

    /** `import_csv` as written: the configuration is stored, and when it is valid the
        reader is built with a `config` argument its constructor does not take, which
        raises before the file dialog opens. The data is never loaded. */
    method ImportCsvAsWritten(depthText: string, timeoutText: string, includeExternalSites: bool,
                              enableWhitelistUrl: bool, enableTrimUrl: bool, enableBlacklistUrl: bool,
                              choice: FileChoice) returns (err: Option<ImportError>)
      modifies this
      ensures config == CreateConfig(depthText, timeoutText, includeExternalSites,
                                     enableWhitelistUrl, enableTrimUrl, enableBlacklistUrl)
      ensures err.Some? <==> config.Some?
      ensures data == old(data) && crawlManager == old(crawlManager)
    {
      config := CreateConfig(depthText, timeoutText, includeExternalSites,
                             enableWhitelistUrl, enableTrimUrl, enableBlacklistUrl);
      if config.None? {
        return None;
      }
      return Some(ReaderTakesNoConfig);
    }

    /** `import_csv` with the reader built without arguments: an invalid configuration
        stops before the dialog; a cancelled dialog or a failed read leaves the data as it
        was; otherwise the data is the file's site records. */
    method ImportCsv(depthText: string, timeoutText: string, includeExternalSites: bool,
                     enableWhitelistUrl: bool, enableTrimUrl: bool, enableBlacklistUrl: bool,
                     choice: FileChoice)
      modifies this
      ensures config == CreateConfig(depthText, timeoutText, includeExternalSites,
                                     enableWhitelistUrl, enableTrimUrl, enableBlacklistUrl)
      ensures data == if config.Some? && choice.Picked? then Some(CsvReader.ReadSites(choice.rows)) else old(data)
      ensures crawlManager == old(crawlManager)
    {
      config := CreateConfig(depthText, timeoutText, includeExternalSites,
                             enableWhitelistUrl, enableTrimUrl, enableBlacklistUrl);
      if config.None? {
        return;
      }
      match choice {
        case Picked(rows) =>
          var sites := CsvReader.Read(rows);
          data := Some(sites);
        case Cancelled =>
        case ReadFailed =>
      }
    }

    /** `start_process`: with no data, or no site records, nothing starts; otherwise a new
        manager with the current configuration builds its controllers from the records. */
    method StartProcess() returns (started: bool)
      modifies this
      ensures started <==> old(data).Some? && old(data).value != []
      ensures config == old(config) && data == old(data)
      ensures !started ==> crawlManager == old(crawlManager)
      ensures started ==> (crawlManager != null && fresh(crawlManager)
                           && crawlManager.config == config
                           && crawlManager.controllers == Managers.ControllersFor(AsRows(data.value), config))
    {
      if data.None? || data.value == [] {
        return false;
      }
      var manager := new Managers.CrawlManager(config);
      crawlManager := manager;
      manager.CreateControllers(AsRows(data.value));
      return true;
    }
  }

  /** Running the import as written on a valid configuration and a readable file leaves
      the window without data, so Start refuses to run. */
  method ImportAsWrittenThenStart(rows: seq<CsvReader.Row>) returns (started: bool)
    ensures !started
  {
    var app := new MainClass();
    var err := app.ImportCsvAsWritten("2", "30", false, false, false, false, Picked(rows));
    started := app.StartProcess();
  }

  /** With the corrected import, a file with at least one site row starts a crawl with one
      controller per site record. */
  method ImportThenStart(rows: seq<CsvReader.Row>) returns (started: bool, controllers: nat)
    requires CsvReader.ReadSites(rows) != []
    ensures started && controllers == |CsvReader.ReadSites(rows)|
  {
    var app := new MainClass();
    app.ImportCsv("2", "30", false, false, false, false, Picked(rows));
    started := app.StartProcess();
    ImportedSitesAllCrawled(rows, app.config);
    controllers := |app.crawlManager.controllers|;
  }
}
