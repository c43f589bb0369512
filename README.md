# A verified model of the oc_project_3 metrics report

`project3.py` fetches three lists from a REST gateway: geographic regions, data centers
and services. For every data center and every service it asks the computed-metrics
endpoint for that pair, and writes one CSV file per region. Each file has one row per
(data center, service) pair, with the data center's location and status and the
pair's capacity and utilization figures.

This project models the logic between the HTTP calls and the files:

- **Envelope** (`envelope.dfy`): the unwrapping of a gateway response. It is the
  three-way case split that `fetch_georegions`, `fetch_data_centers` and
  `fetch_services` each repeat. `json.loads` is a parameter `parse`.
- **Metrics** (`metrics.dfy`): `fetch_computed_metrics`. It builds the query
  parameters by conditional insertion and passes them to the endpoint, which is a
  parameter `api` from the ordered parameter list to the answer. This module also has
  the first-match lookup `next((m for m in metrics if ...), {})`.
- **Grouping** (`grouping.dfy`): the region map of `main`. The dict comprehension
  over the regions is followed by the loop that appends each data center to its
  region's list. It is written as a method with two loops and is proved equal to a
  recursive specification, `Group`.
- **Report** (`report.dfy`): the rows of a region are the data centers crossed with
  the services, data-center-major and service-minor. Each region's file is
  written in turn. The nested loops and the loop over regions are methods (`BuildRows`,
  `Run`) proved equal to the specification functions `RegionRows` and `Pipeline`.
- **Scenario** (`scenario.dfy`): a concrete run, with two regions, four data centers
  (one naming an unknown region) and two services.
- **Data** (`data.dfy`) and **Wrappers** (`wrappers.dfy`): JSON values, Python's
  `dict.get`, truthiness and hashability, the exceptions the core raises, and the
  `Option` and `Result` types.

### Exceptions

The exceptions the code can raise are part of the model:

- `KeyError`: a region record without `geo_region_name` raises it in the comprehension.
- `TypeError`: a list or dict used as a region name raises it, both in the
  comprehension and in the `region_name in georegion_map` test.
- `IndexError`: `output_data[0]` raises it on an empty row list. The row list is empty
  for a region with no data centers, and for every region when there are no
  services. The region's file is opened for writing (project3.py:94) before the
  header is taken from the first row (project3.py:95), so that file is left created
  or truncated and empty. A run that raises keeps the files already written for
  earlier regions: `RunOutcome.written` records those files, and `RunOutcome.emptied`
  records the region whose file was left empty.

### What the code does not do

- A region without data centers is not skipped. project3.py:94-95 opens its file and
  then indexes `output_data[0]`, which raises IndexError and ends the run.
- `get_json` (project3.py:8-12) makes one request. There is no retry.

## Model

| member | source | states |
|---|---|---|
| Envelope.Unwrap | project3.py:17-22 | Computes the payload of a listing response. A dict with `body` gives the body, parsed first when it is a string. Its contract states that anything that is not such a dict is its own payload. |
| Envelope.UnwrapCases | project3.py:17-22 | A dict with a string `body` gives `parse(body)`. A dict with any other `body` gives that body unchanged. Anything that is not a dict with `body` passes through unchanged. |
| Envelope.UnwrapObjectBody | project3.py:17-21 | `{"body": v}` gives back `v` itself, unless `v` is a string, which is always parsed. |
| Envelope.UnwrapWrap | project3.py:17-20 | If the parser reads back what a gateway serialized into `body`, unwrapping that gateway response gives back the payload. |
| Envelope.UnwrapIdempotent | project3.py:17-22 | Unwrapping a result that is no longer an envelope changes nothing. |
| Envelope.UnwrapStringBodyExample | project3.py:17-20 | A `body` holding the text of a list gives the parsed list, not the text. |
| Metrics.QueryParams | project3.py:43-49 | Each of `service_name`, `dc_name` and `timestamp` maps to its argument when that argument is truthy, and is absent otherwise. No other key appears. Keys appear in the order service_name, dc_name, timestamp. |
| Metrics.FetchComputedMetrics | project3.py:42-50 | The three conditional insertions build exactly `QueryParams`. The timestamp defaults to "latest". The endpoint's answer is returned without unwrapping. |
| Metrics.FirstMatch | project3.py:77 | None exactly when no record has `dc_name` equal to the data center's name. Otherwise the result is a record at an index where one matches, with no match before it. |
| Metrics.FirstMatchAt | project3.py:77 | The record at the first matching index is the one chosen, whatever comes after it. |
| Grouping.RegionKeys | project3.py:58 | Computes the keys of the comprehension in insertion order, or the exception of the first bad record. Its contract says there are at most as many keys as region records, and that the only exceptions are KeyError and TypeError. |
| Grouping.Assign | project3.py:64-67 | Computes the region map after the append loop, or the TypeError of the first data center with an unhashable region name. Its contract says TypeError is the only exception the loop raises. |
| Grouping.RegionKeysError | project3.py:58 | The comprehension fails exactly when some region record lacks a hashable `geo_region_name`. The exception raised is that of the first such record. |
| Grouping.RegionKeysContents | project3.py:58 | The keys are distinct. Every region's name is a key, and every key is some region's name. |
| Grouping.RegionKeysPrefix | project3.py:58 | The keys of a prefix of the regions are a prefix of all the keys, which gives first-occurrence order with duplicates collapsed. |
| Grouping.RegionKeysStops | project3.py:58 | Once a region record raises, later records do not change the outcome. |
| Grouping.MembersAppend | project3.py:64-67 | The members of a region among `a + b` are its members among `a`, followed by its members among `b`. |
| Grouping.MembersMembership | project3.py:64-67 | A data center is among a region's members exactly when it is in the input and names that region. |
| Grouping.AssignSpec | project3.py:64-67 | The append loop fails exactly when some data center's region name is unhashable, with the error of the first such data center. Otherwise the lists have exactly the region keys, and each list holds the data centers naming that region, in input order. |
| Grouping.AssignStops | project3.py:64-67 | Once a data center raises, later data centers do not change the outcome. |
| Grouping.GroupSpec | project3.py:58-67 | A successful grouping keeps the distinct region keys in first-occurrence order. These include regions with no data centers. Each list is exactly the data centers naming that region, in input order. |
| Grouping.GroupMembership | project3.py:58-67 | For a known region, a data center is in its list exactly when it is an input data center naming that region. Data centers naming an unknown region are in no list. |
| Grouping.GroupHasLists | project3.py:58-67 | Every region in the iteration order has a list. |
| Grouping.GroupByRegion | project3.py:58-67 | The comprehension followed by the append loop computes `Group`, including its KeyError and TypeError outcomes. |
| Report.MakeRow | project3.py:72-89 | Computes the row literal for one data center and one service. Report.RowColumns states its columns. |
| Report.WriteCsv | project3.py:93-97 | Computes the contents of an opened file: IndexError for an empty row list, otherwise the header and the rows. Report.WriteRegionsFiles and Report.WriteRegionsOutcome state what it leads to. |
| Report.WriteRegions | project3.py:69-97 | Computes the files of the regions written in turn, the region left with an empty file and the exception, if any. Report.WriteRegionsFiles and Report.WriteRegionsOutcome state its properties. |
| Report.RegionRowsShape | project3.py:70-90 | A region has as many rows as its data centers times the services. Row `i * n + j`, where `n` is the number of services, is the row of the i-th data center and the j-th service. |
| Report.RegionRowsEmpty | project3.py:70-90 | The row list is empty exactly when the region has no data centers or there are no services. |
| Report.RowColumns | project3.py:72-89 | "Data Center", "Service", location and status are copied from the data center and service, or are null when a key is missing. The three metric columns come from the first metric record for that data center, and are null when no record matches. |
| Report.MetricsQuery | project3.py:74-75 | Each row's query sends timestamp "latest", and sends the service and data center names when they are truthy. |
| Report.BuildRows | project3.py:70-90 | The nested loops over data centers and services produce exactly `RegionRows`. |
| Report.WriteRegionsFiles | project3.py:69-97 | The i-th file written is for the i-th region, with the nine-column header and that region's rows, and those rows are non-empty. |
| Report.WriteRegionsOutcome | project3.py:69-97 | A run over the regions ends without an exception exactly when no region's row list is empty, and then every region is written. Otherwise it raises IndexError at the first empty region. Only the regions before it are written, and that region's file is left empty. |
| Report.PipelineGroupError | project3.py:52-67 | An exception while grouping ends the run before any file is opened. |
| Report.PipelineFiles | project3.py:52-99 | The i-th file is for the i-th region key, with header `Header`. Its rows are the region's data centers crossed with the services, as many as its data centers times the services. |
| Report.PipelineOutcome | project3.py:52-99 | A grouped run ends without an exception exactly when every region has a data center and there is at least one service. Then every region gets a file. Otherwise IndexError ends it at the first region that has no data center, or at the first region when there is no service. The regions before it are written, and that region's file is left empty. |
| Report.Run | project3.py:52-99 | The grouping followed by the loop over regions, each with its nested row loops and its file write, computes `Pipeline`. |
| Scenario.ScenarioOrder | project3.py:58-67 | In the example, the grouping succeeds with keys us-east then us-west, and the members of us-east are e1 and e2 and of us-west w1. |
| Scenario.ScenarioGroup | project3.py:58-67 | In the example, the grouping succeeds with keys us-east then us-west. Its lists are exactly us-east: [e1, e2] and us-west: [w1], and the data center naming an unknown region is in no list. |
| Scenario.TwoRegions | project3.py:52-99 | In the example, us-east gets 2 * 2 rows and us-west 1 * 2, in that order, and the run ends without an exception. |

## Left out

- `get_json` (project3.py:8-12): the HTTP request, `raise_for_status` and response
  decoding are not modelled. The three lists are inputs and the metrics endpoint is a
  function parameter, so network and HTTP failures are not modelled either.
- The three fetch functions (project3.py:14-40): only their shared unwrapping is
  modelled, as `Envelope.Unwrap`. The pipeline takes the unwrapped lists as
  `seq<Dict>`, so a response that is not a list of dicts is not modelled. Neither is
  the iteration over whatever else Python would iterate.
- `json.loads`: an uninterpreted total function, so a parse error is not modelled.
- `os.makedirs`, the file path, `open`, `csv.DictWriter` and `print`
  (project3.py:61-62, 93-99): I/O. A written file is its region, its header (the
  nine column names in the row literal's key order) and its rows. The CSV text
  encoding of values is not modelled.
- Python's cross-type equality `True == 1` (and hashing `True` and `1` to the same
  dict key) is not modelled. Values compare structurally, and numbers are reals, so
  `1 == 1.0` does hold. Float specials such as NaN are not modelled.
- Metrics.FetchComputedMetrics: the metrics answer is taken to be a list of dicts,
  because the endpoint `api` returns `seq<Dict>`. The code does not unwrap it
  (project3.py:50). An envelope answer would make `for m in metrics` (project3.py:77)
  iterate the dict's keys, and a list with a non-dict element would do the same:
  `m.get` then raises AttributeError. This error path is not modelled.
- Report.WriteRegionsOutcome, Report.PipelineOutcome: a file is identified by its
  region key, not by its path `f"{region}_data_centers.csv"`. Two distinct keys with
  the same `str()` would write one path, and the later file would replace the earlier
  one. For example, a number and a string such as `1` and `"1"` do this. The model
  lists both files. "Without an exception" also assumes that `open` succeeds
  (project3.py:94). A region name that makes the path invalid, such as one containing
  `/` (a missing subdirectory) or a NUL character, would raise there instead. That
  failure is not modelled.
- Data centers are dicts (`seq<Dict>`), so `dc.get` raising AttributeError on a
  non-dict data center is not modelled.
- Latitude, longitude and the metric figures are copied, never computed on, so they
  are kept as opaque JSON values.
