/**
 * The per-region report of `main`: every data center of a region crossed with every
 * service, one row per pair, written as one CSV file per region in region order.
 */
module Report {
  import opened Wrappers
  import opened Data
  import opened Metrics
  import opened Grouping

  /** One CSV row: the dict literal that `main` appends, one field per column. */
  datatype Row = Row(
    dataCenter: Value,
    service: Value,
    latitude: Value,
    longitude: Value,
    city: Value,
    status: Value,
    provisionedCapacity: Value,
    utilization: Value,
    observedUtilization: Value)

  /** The column names, in the key order of the row literal, which is the CSV header. */
  const Header: seq<string> := ["Data Center", "Service", "Latitude", "Longitude", "City", "Status",
                                "Provisioned Capacity", "Utilization %", "Observed Utilization"]

  /** A written CSV file: the region it is named after, its header and its rows. */
  datatype CsvFile = CsvFile(region: Value, header: seq<string>, rows: seq<Row>)

  /**
   * What a run leaves behind: the files written, in order; the region whose file was
   * opened for writing, and so created or truncated, but left empty when writing it
   * raised; and the exception that ended the run, if any. Files written before an
   * exception stay written.
   */
  datatype RunOutcome = RunOutcome(written: seq<CsvFile>, emptied: Option<Value>, failure: Option<Error>)

  /** The metrics call of `main` for one pair, at timestamp "latest". */
  function MetricsFor(dc: Dict, service: Dict, api: Api): seq<Dict> {
    api(QueryParams(Get(service, "service_name"), Get(dc, "dc_name"), JStr("latest")))
  }

  /** The row for one data center and one service. */
  function MakeRow(dc: Dict, service: Dict, api: Api): Row {
    var dcName := Get(dc, "dc_name");
    var m := FirstMatch(MetricsFor(dc, service, api), dcName).GetOr(map[]);
    Row(dcName, Get(service, "service_name"),
        Get(dc, "latitude"), Get(dc, "longitude"), Get(dc, "city"), Get(dc, "status"),
        Get(m, "provisioned_capacity"), Get(m, "utilization_percentage"), Get(m, "observed_utilization"))
  }

  /** The row builder of a run, as a function of the pair. */
  function RowFor(api: Api): (Dict, Dict) -> Row {
    (dc, service) => MakeRow(dc, service, api)
  }

  /** `f(x, y)` for each `y` of `ys` in order: the inner loop, over the services. */
  function Along<A, B, R>(x: A, ys: seq<B>, f: (A, B) -> R): seq<R> {
    if ys == [] then []
    else Along(x, ys[..|ys| - 1], f) + [f(x, ys[|ys| - 1])]
  }

  /** `Along` for each `x` of `xs` in order: the outer loop, over the data centers. */
  function Cross<A, B, R>(xs: seq<A>, ys: seq<B>, f: (A, B) -> R): seq<R> {
    if xs == [] then []
    else Cross(xs[..|xs| - 1], ys, f) + Along(xs[|xs| - 1], ys, f)
  }

  /** The rows of one region: every data center crossed with every service. */
  function RegionRows(dcs: seq<Dict>, services: seq<Dict>, api: Api): seq<Row> {
    Cross(dcs, services, RowFor(api))
  }

  /**
   * Filling one region's file once it is open: the header is the key list of the first
   * row, so an empty list of rows raises IndexError and nothing goes into the file.
   */
  function WriteCsv(region: Value, rows: seq<Row>): Result<CsvFile, Error> {
    if rows == [] then Err(IndexError) else Ok(CsvFile(region, Header, rows))
  }

  /**
   * The regions `order`, in turn, each written from its rows in `table`. Each file is
   * opened before the header is taken from its first row, so the region that raises
   * is left with an empty file.
   */
  function WriteRegions(order: seq<Value>, table: map<Value, seq<Row>>): RunOutcome
    requires forall k :: k in order ==> k in table
  {
    if order == [] then RunOutcome([], None, None)
    else
      match WriteCsv(order[0], table[order[0]]) {
        case Err(e) => RunOutcome([], Some(order[0]), Some(e))
        case Ok(file) =>
          var rest := WriteRegions(order[1..], table);
          RunOutcome([file] + rest.written, rest.emptied, rest.failure)
      }
  }

  /** The rows of every known region. */
  function RowTable(lists: map<Value, seq<Dict>>, services: seq<Dict>, api: Api): map<Value, seq<Row>> {
    map k | k in lists :: RegionRows(lists[k], services, api)
  }

  /** A whole run of `main` on the fetched regions, data centers and services. */
  function Pipeline(regions: seq<Dict>, dcs: seq<Dict>, services: seq<Dict>, api: Api): RunOutcome {
    match Group(regions, dcs) {
      case Err(e) => RunOutcome([], None, Some(e))
      case Ok(g) =>
        GroupHasLists(regions, dcs);
        WriteRegions(g.order, RowTable(g.lists, services, api))
    }
  }

  // ---------------------------------------------------------------------------
  // Properties

  /** The inner loop's rows: one per service. */
  lemma {:induction false} AlongLength<A, B, R>(x: A, ys: seq<B>, f: (A, B) -> R)
    ensures |Along(x, ys, f)| == |ys|
  {
    if ys != [] {
      AlongLength(x, ys[..|ys| - 1], f);
    }
  }

  /** The inner loop's `j`-th row is for the `j`-th service. */
  lemma {:induction false} AlongAt<A, B, R>(x: A, ys: seq<B>, f: (A, B) -> R, j: nat)
    requires j < |ys|
    ensures |Along(x, ys, f)| == |ys| && Along(x, ys, f)[j] == f(x, ys[j])
  {
    var n := |ys| - 1;
    AlongLength(x, ys[..n], f);
    AlongLength(x, ys, f);
    if j < n {
      AlongAt(x, ys[..n], f, j);
      assert ys[..n][j] == ys[j];
    }
  }

  /** `i * s` by repeated addition, to keep the index reasoning below linear. */
  function Offset(i: nat, s: nat): nat {
    if i == 0 then 0 else Offset(i - 1, s) + s
  }

  lemma {:induction false} OffsetIsProduct(i: nat, s: nat)
    ensures Offset(i, s) == i * s
  {
    if i > 0 {
      OffsetIsProduct(i - 1, s);
      assert (i - 1) * s + s == i * s;
    }
  }

  lemma {:induction false} OffsetBelow(i: nat, n: nat, s: nat)
    requires i < n
    ensures Offset(i, s) + s <= Offset(n, s)
  {
    if i < n - 1 {
      OffsetBelow(i, n - 1, s);
    }
  }

  lemma {:induction false} CrossLength<A, B, R>(xs: seq<A>, ys: seq<B>, f: (A, B) -> R)
    ensures |Cross(xs, ys, f)| == Offset(|xs|, |ys|)
  {
    if xs != [] {
      CrossLength(xs[..|xs| - 1], ys, f);
      AlongLength(xs[|xs| - 1], ys, f);
    }
  }

  /** The element for `xs[i]` and `ys[j]`, with its position written as Offset. */
  lemma {:induction false} CrossAt<A, B, R>(xs: seq<A>, ys: seq<B>, f: (A, B) -> R, i: nat, j: nat)
    requires i < |xs| && j < |ys|
    ensures Offset(i, |ys|) + j < |Cross(xs, ys, f)|
    ensures Cross(xs, ys, f)[Offset(i, |ys|) + j] == f(xs[i], ys[j])
  {
    var n := |xs| - 1;
    var s := |ys|;
    var front := Cross(xs[..n], ys, f);
    var last := Along(xs[n], ys, f);
    assert Cross(xs, ys, f) == front + last;
    CrossLength(xs[..n], ys, f);
    AlongLength(xs[n], ys, f);
    if i < n {
      OffsetBelow(i, n, s);
      CrossAt(xs[..n], ys, f, i, j);
      assert xs[..n][i] == xs[i];
    } else {
      AlongAt(xs[n], ys, f, j);
    }
  }

  /**
   * A full cross join: |xs| * |ys| elements, `xs`-major and `ys`-minor, so each
   * pair has exactly one element.
   */
  lemma CrossShape<A, B, R>(xs: seq<A>, ys: seq<B>, f: (A, B) -> R)
    ensures |Cross(xs, ys, f)| == |xs| * |ys|
    ensures forall i, j :: 0 <= i < |xs| && 0 <= j < |ys| ==>
              i * |ys| + j < |xs| * |ys| && Cross(xs, ys, f)[i * |ys| + j] == f(xs[i], ys[j])
  {
    CrossLengthProduct(xs, ys, f);
    forall i, j | 0 <= i < |xs| && 0 <= j < |ys|
      ensures i * |ys| + j < |xs| * |ys| && Cross(xs, ys, f)[i * |ys| + j] == f(xs[i], ys[j])
    {
      CrossAtProduct(xs, ys, f, i, j);
    }
  }

  lemma CrossLengthProduct<A, B, R>(xs: seq<A>, ys: seq<B>, f: (A, B) -> R)
    ensures |Cross(xs, ys, f)| == |xs| * |ys|
  {
    CrossLength(xs, ys, f);
    OffsetIsProduct(|xs|, |ys|);
  }

  lemma CrossAtProduct<A, B, R>(xs: seq<A>, ys: seq<B>, f: (A, B) -> R, i: nat, j: nat)
    requires i < |xs| && j < |ys|
    ensures |Cross(xs, ys, f)| == |xs| * |ys|
    ensures i * |ys| + j < |xs| * |ys| && Cross(xs, ys, f)[i * |ys| + j] == f(xs[i], ys[j])
  {
    CrossLengthProduct(xs, ys, f);
    OffsetIsProduct(i, |ys|);
    CrossAt(xs, ys, f, i, j);
  }

  /**
   * The rows of a region: |dcs| * |services| of them, data-center-major and
   * service-minor, one for each (data center, service) pair.
   */
  lemma RegionRowsShape(dcs: seq<Dict>, services: seq<Dict>, api: Api)
    ensures |RegionRows(dcs, services, api)| == |dcs| * |services|
    ensures forall i, j :: 0 <= i < |dcs| && 0 <= j < |services| ==>
              i * |services| + j < |dcs| * |services| &&
              RegionRows(dcs, services, api)[i * |services| + j] == MakeRow(dcs[i], services[j], api)
  {
    CrossShape(dcs, services, RowFor(api));
  }

  /**
   * The columns of a row: identity and location from the data center, the service name
   * from the service, each missing key as null; the metric columns from the first record
   * of the metrics answer that is for this data center, all null when there is none.
   */
  lemma RowColumns(dc: Dict, service: Dict, api: Api)
    ensures var row := MakeRow(dc, service, api);
            && row.dataCenter == Get(dc, "dc_name")
            && row.service == Get(service, "service_name")
            && row.latitude == Get(dc, "latitude") && row.longitude == Get(dc, "longitude")
            && row.city == Get(dc, "city") && row.status == Get(dc, "status")
    ensures var metrics := MetricsFor(dc, service, api);
            var row := MakeRow(dc, service, api);
            && ((forall i :: 0 <= i < |metrics| ==> !IsFor(metrics[i], Get(dc, "dc_name"))) ==>
                  row.provisionedCapacity == JNull && row.utilization == JNull && row.observedUtilization == JNull)
            && (forall p :: 0 <= p < |metrics| && IsFor(metrics[p], Get(dc, "dc_name"))
                            && (forall q :: 0 <= q < p ==> !IsFor(metrics[q], Get(dc, "dc_name"))) ==>
                  && row.provisionedCapacity == Get(metrics[p], "provisioned_capacity")
                  && row.utilization == Get(metrics[p], "utilization_percentage")
                  && row.observedUtilization == Get(metrics[p], "observed_utilization"))
  {
    var metrics := MetricsFor(dc, service, api);
    forall p | 0 <= p < |metrics| && IsFor(metrics[p], Get(dc, "dc_name"))
               && (forall q :: 0 <= q < p ==> !IsFor(metrics[q], Get(dc, "dc_name")))
    {
      FirstMatchAt(metrics, Get(dc, "dc_name"), p);
    }
  }

  /** The metrics query of each row names the service and the data center, when truthy, at "latest". */
  lemma MetricsQuery(dc: Dict, service: Dict)
    ensures var params := QueryParams(Get(service, "service_name"), Get(dc, "dc_name"), JStr("latest"));
            && Lookup(params, "timestamp") == Some(JStr("latest"))
            && Lookup(params, "dc_name") == (if Truthy(Get(dc, "dc_name")) then Some(Get(dc, "dc_name")) else None)
            && Lookup(params, "service_name") ==
                 (if Truthy(Get(service, "service_name")) then Some(Get(service, "service_name")) else None)
  {
  }

  /** A region has no rows exactly when it has no data center or there is no service. */
  lemma RegionRowsEmpty(dcs: seq<Dict>, services: seq<Dict>, api: Api)
    ensures RegionRows(dcs, services, api) == [] <==> dcs == [] || services == []
  {
    RegionRowsShape(dcs, services, api);
    if dcs != [] && services != [] {
      assert |dcs| * |services| >= |services|;
    }
  }

  /**
   * The files written for regions `order`: one per region, in order, each holding that
   * region's rows, none of them empty.
   */
  lemma {:induction false} WriteRegionsFiles(order: seq<Value>, table: map<Value, seq<Row>>)
    requires forall k :: k in order ==> k in table
    ensures var rep := WriteRegions(order, table);
            && |rep.written| <= |order|
            && forall i :: 0 <= i < |rep.written| ==>
                 rep.written[i] == CsvFile(order[i], Header, table[order[i]]) && table[order[i]] != []
  {
    if order != [] {
      WriteRegionsFiles(order[1..], table);
      var rep := WriteRegions(order, table);
      var rest := WriteRegions(order[1..], table);
      var rows := table[order[0]];
      if rows != [] {
        assert WriteCsv(order[0], rows) == Ok(CsvFile(order[0], Header, rows));
        assert rep.written == [CsvFile(order[0], Header, rows)] + rest.written;
        forall i | 1 <= i < |rep.written|
          ensures rep.written[i] == CsvFile(order[i], Header, table[order[i]]) && table[order[i]] != []
        {
          assert rep.written[i] == rest.written[i - 1] && order[1..][i - 1] == order[i];
        }
      }
    }
  }

  /**
   * How writing regions `order` ends: without an exception iff every region has rows,
   * after writing all of them; otherwise with IndexError at the first region without
   * rows, after writing the regions before it and leaving that region's file empty.
   */
  lemma {:induction false} WriteRegionsOutcome(order: seq<Value>, table: map<Value, seq<Row>>)
    requires forall k :: k in order ==> k in table
    ensures var rep := WriteRegions(order, table);
            && (rep.failure.None? <==> forall i :: 0 <= i < |order| ==> table[order[i]] != [])
            && (rep.failure.None? ==> |rep.written| == |order| && rep.emptied == None)
            && (rep.failure.Some? ==>
                  && rep.failure == Some(IndexError)
                  && |rep.written| < |order|
                  && rep.emptied == Some(order[|rep.written|])
                  && table[order[|rep.written|]] == [])
  {
    if order != [] {
      WriteRegionsOutcome(order[1..], table);
      var rep := WriteRegions(order, table);
      var rest := WriteRegions(order[1..], table);
      var rows := table[order[0]];
      if rows != [] {
        assert WriteCsv(order[0], rows) == Ok(CsvFile(order[0], Header, rows));
        assert rep == RunOutcome([CsvFile(order[0], Header, rows)] + rest.written, rest.emptied, rest.failure);
        assert forall i :: 0 <= i < |order| - 1 ==> order[1..][i] == order[i + 1];
        if rep.failure.None? {
          forall i | 0 <= i < |order| ensures table[order[i]] != [] {
            if i > 0 { assert order[i] == order[1..][i - 1]; }
          }
        }
      } else {
        assert WriteCsv(order[0], rows) == Err(IndexError);
      }
    }
  }

  /** A missing or unhashable region name raises before any file is opened. */
  lemma PipelineGroupError(regions: seq<Dict>, dcs: seq<Dict>, services: seq<Dict>, api: Api)
    requires Group(regions, dcs).Err?
    ensures Pipeline(regions, dcs, services, api) == RunOutcome([], None, Some(Group(regions, dcs).error))
  {
  }

  /**
   * The files of a run whose regions group: the i-th file is for the i-th known region,
   * in the order regions were fetched, with the CSV header and one row per (data center
   * of that region, service) pair, data-center-major.
   */
  lemma PipelineFiles(regions: seq<Dict>, dcs: seq<Dict>, services: seq<Dict>, api: Api)
    requires Group(regions, dcs).Ok?
    ensures var g := Group(regions, dcs).value;
            var rep := Pipeline(regions, dcs, services, api);
            && |rep.written| <= |g.order|
            && forall i :: 0 <= i < |rep.written| ==>
                 && rep.written[i].region == g.order[i]
                 && rep.written[i].header == Header
                 && rep.written[i].rows == RegionRows(Members(dcs, g.order[i]), services, api)
                 && |rep.written[i].rows| == |Members(dcs, g.order[i])| * |services|
  {
    var g := Group(regions, dcs).value;
    GroupSpec(regions, dcs);
    WriteRegionsFiles(g.order, RowTable(g.lists, services, api));
    var rep := Pipeline(regions, dcs, services, api);
    assert rep == WriteRegions(g.order, RowTable(g.lists, services, api));
    forall i | 0 <= i < |rep.written|
      ensures |RegionRows(Members(dcs, g.order[i]), services, api)| == |Members(dcs, g.order[i])| * |services|
    {
      RegionRowsShape(Members(dcs, g.order[i]), services, api);
    }
  }

  /**
   * How a run whose regions group ends: without an exception, having written every
   * known region, iff every known region has a data center and there is a service;
   * otherwise with IndexError at the first region without a data center (or at the
   * first region, when there is no service), whose file is left empty.
   */
  lemma PipelineOutcome(regions: seq<Dict>, dcs: seq<Dict>, services: seq<Dict>, api: Api)
    requires Group(regions, dcs).Ok?
    ensures var g := Group(regions, dcs).value;
            var rep := Pipeline(regions, dcs, services, api);
            && (rep.failure.None? <==>
                  forall i :: 0 <= i < |g.order| ==> Members(dcs, g.order[i]) != [] && services != [])
            && (rep.failure.None? ==> |rep.written| == |g.order| && rep.emptied == None)
            && (rep.failure.Some? ==>
                  && rep.failure == Some(IndexError)
                  && |rep.written| < |g.order|
                  && rep.emptied == Some(g.order[|rep.written|])
                  && (Members(dcs, g.order[|rep.written|]) == [] || services == [])
                  && forall i :: 0 <= i < |rep.written| ==> Members(dcs, g.order[i]) != [] && services != [])
  {
    var g := Group(regions, dcs).value;
    GroupSpec(regions, dcs);
    WriteRegionsOutcome(g.order, RowTable(g.lists, services, api));
    WriteRegionsFiles(g.order, RowTable(g.lists, services, api));
    var rep := Pipeline(regions, dcs, services, api);
    assert rep == WriteRegions(g.order, RowTable(g.lists, services, api));
    forall i | 0 <= i < |g.order|
      ensures RowTable(g.lists, services, api)[g.order[i]] != [] <==> Members(dcs, g.order[i]) != [] && services != []
    {
      RegionRowsEmpty(Members(dcs, g.order[i]), services, api);
    }
  }

  // ---------------------------------------------------------------------------
  // The code

  /** The nested loops over a region's data centers and the services, building its rows. */
  method BuildRows(dcs: seq<Dict>, services: seq<Dict>, api: Api) returns (rows: seq<Row>)
    ensures rows == RegionRows(dcs, services, api)
  {
    rows := [];
    for i := 0 to |dcs|
      invariant rows == RegionRows(dcs[..i], services, api)
    {
      assert dcs[..i + 1][..i] == dcs[..i];
      var dc := dcs[i];
      var dcName := Get(dc, "dc_name");
      for j := 0 to |services|
        invariant rows == RegionRows(dcs[..i], services, api) + Along(dc, services[..j], RowFor(api))
      {
        assert services[..j + 1][..j] == services[..j];
        var service := services[j];
        var serviceName := Get(service, "service_name");
        var metrics := FetchComputedMetrics(api, serviceName := serviceName, dcName := dcName,
                                            timestamp := JStr("latest"));
        var dcMetrics := FirstMatch(metrics, dcName).GetOr(map[]);
        var row := Row(dcName, serviceName,
                       Get(dc, "latitude"), Get(dc, "longitude"), Get(dc, "city"), Get(dc, "status"),
                       Get(dcMetrics, "provisioned_capacity"), Get(dcMetrics, "utilization_percentage"),
                       Get(dcMetrics, "observed_utilization"));
        assert metrics == MetricsFor(dc, service, api);
        assert row == MakeRow(dc, service, api);
        rows := rows + [row];
      }
      assert services[..|services|] == services;
      assert RegionRows(dcs[..i + 1], services, api) == RegionRows(dcs[..i], services, api) + Along(dc, services, RowFor(api));
    }
    assert dcs[..|dcs|] == dcs;
  }

  /**
   * `main` after the three listing fetches: group the data centers, then build and write
   * each region's rows in region order.
   */
  method Run(regions: seq<Dict>, dcs: seq<Dict>, services: seq<Dict>, api: Api) returns (outcome: RunOutcome)
    ensures outcome == Pipeline(regions, dcs, services, api)
  {
    var grouped := GroupByRegion(regions, dcs);
    if grouped.Err? {
      return RunOutcome([], None, Some(grouped.error));
    }
    var g := grouped.value;
    GroupHasLists(regions, dcs);
    ghost var table := RowTable(g.lists, services, api);
    ghost var whole := WriteRegions(g.order, table);
    assert Pipeline(regions, dcs, services, api) == whole;
    assert g.order[0..] == g.order;
    var written: seq<CsvFile> := [];
    for i := 0 to |g.order|
      invariant var rest := WriteRegions(g.order[i..], table);
                whole == RunOutcome(written + rest.written, rest.emptied, rest.failure)
    {
      var region := g.order[i];
      var rows := BuildRows(g.lists[region], services, api);
      assert rows == table[region];
      ghost var rest := WriteRegions(g.order[i + 1..], table);
      assert WriteRegions(g.order[i..], table) ==
               if rows == [] then RunOutcome([], Some(region), Some(IndexError))
               else RunOutcome([CsvFile(region, Header, rows)] + rest.written, rest.emptied, rest.failure) by {
        assert g.order[i..][0] == region && g.order[i..][1..] == g.order[i + 1..];
      }
      if |rows| == 0 {
        return RunOutcome(written, Some(region), Some(IndexError));
      }
      written := written + [CsvFile(region, Header, rows)];
    }
    return RunOutcome(written, None, None);
  }
}
