/** The crawl manager: it keeps the run configuration and builds one crawl controller
    per imported row that has a URL. Running the controllers is not modelled. */
module Managers {
  import opened Wrappers
  import opened Settings

  /** A row handed to the manager, as a dictionary; only its "url" entry is read. */
  type Row = map<string, string>

  /** What a crawl controller is built from: its start URL, its depth and the run
      configuration. */
  datatype Controller = Controller(url: string, depth: nat, config: Option<Config>)

  /** `row.get("url")` is truthy: the key is present and its value is not empty.
      There is no trimming, so a URL of spaces counts. */
  predicate HasUrl(row: Row) {
    "url" in row && row["url"] != ""
  }

  /** The controllers `create_controllers` appends for `rows`. */
  function ControllersFor(rows: seq<Row>, config: Option<Config>): seq<Controller> {
    if rows == [] then []
    else
      var last := rows[|rows| - 1];
      ControllersFor(rows[..|rows| - 1], config)
        + (if HasUrl(last) then [Controller(last["url"], 0, config)] else [])
  }

  /** Building controllers for `a + b` builds those for `a`, then those for `b`; in
      particular a second call appends the same controllers again. */
  lemma {:induction false} ControllersForAppend(a: seq<Row>, b: seq<Row>, config: Option<Config>)
    ensures ControllersFor(a + b, config) == ControllersFor(a, config) + ControllersFor(b, config)
    decreases |b|
  {
    if b == [] {
      assert a + b == a;
    } else {
      var b' := b[..|b| - 1];
      assert (a + b)[..|a + b| - 1] == a + b';
      assert (a + b)[|a + b| - 1] == b[|b| - 1];
      ControllersForAppend(a, b', config);
    }
  }

  /** Row `row` yields a controller exactly when it has a URL; that controller starts at
      depth 0 with the manager's configuration and sits between the controllers of the
      rows before and after it. */
  lemma ControllersAround(before: seq<Row>, row: Row, after: seq<Row>, config: Option<Config>)
    ensures ControllersFor(before + [row] + after, config) ==
      ControllersFor(before, config)
      + (if HasUrl(row) then [Controller(row["url"], 0, config)] else [])
      + ControllersFor(after, config)
  {
    var front := before + [row];
    ControllersForAppend(front, after, config);
    assert front[..|front| - 1] == before;
    assert front[|front| - 1] == row;
  }

  /** Every controller starts at depth 0, with the given configuration and a non-empty URL. */
  lemma {:induction false} ControllersStartAtDepthZero(rows: seq<Row>, config: Option<Config>)
    ensures forall c :: c in ControllersFor(rows, config) ==> c.depth == 0 && c.config == config && c.url != ""
    decreases |rows|
  {
    if rows != [] {
      ControllersStartAtDepthZero(rows[..|rows| - 1], config);
    }
  }

  /** The positions of the rows with a URL. */
  ghost function RowsWithUrl(rows: seq<Row>): set<nat> {
    set i: nat | i < |rows| && HasUrl(rows[i])
  }

  /** One more row adds its own position when it has a URL. */
  lemma RowsWithUrlSnoc(rows: seq<Row>, row: Row)
    ensures RowsWithUrl(rows + [row]) == RowsWithUrl(rows) + (if HasUrl(row) then {|rows|} else {})
  {
    var all := rows + [row];
    assert forall i :: 0 <= i < |rows| ==> all[i] == rows[i];
    assert all[|rows|] == row;
  }

  /** There is one controller per row with a URL. */
  lemma {:induction false} ControllerCount(rows: seq<Row>, config: Option<Config>)
    ensures |ControllersFor(rows, config)| == |RowsWithUrl(rows)|
    decreases |rows|
  {
    if rows == [] {
      assert RowsWithUrl(rows) == {};
    } else {
      var init, last := rows[..|rows| - 1], rows[|rows| - 1];
      ControllerCount(init, config);
      assert init + [last] == rows;
      RowsWithUrlSnoc(init, last);
      assert |init| !in RowsWithUrl(init);
    }
  }

  /** A URL made only of spaces is accepted: nothing is trimmed. */
  lemma BlankUrlAccepted(config: Option<Config>)
    ensures ControllersFor([map["url" := " "]], config) == [Controller(" ", 0, config)]
  {
    var rows: seq<Row> := [map["url" := " "]];
    assert rows[..0] == [];
    assert HasUrl(rows[0]);
  }

  /** `CrawlManager`: the configuration it was given and the controllers built so far. */
  class CrawlManager {
    const config: Option<Config>
    var controllers: seq<Controller>

    /** `CrawlManager(config)`: no controllers yet. */
    constructor (config: Option<Config>)
      ensures this.config == config && controllers == []
    {
      this.config := config;
      controllers := [];
    }

    /** `create_controllers`: one depth-0 controller per row with a URL, appended in row
        order after the controllers already there. */
    method CreateControllers(rows: seq<Row>)
      modifies this
      ensures controllers == old(controllers) + ControllersFor(rows, config)
    {
      for i := 0 to |rows|
        invariant controllers == old(controllers) + ControllersFor(rows[..i], config)
      {
        var row := rows[i];
        if "url" in row && row["url"] != "" {
          controllers := controllers + [Controller(row["url"], 0, config)];
        }
        assert rows[..i + 1][..i] == rows[..i];
      }
      assert rows[..|rows|] == rows;
    }
  }
}
