/**
 * The computed-metrics query: building its query parameters, and picking the record
 * for one data center out of the answer.
 */
module Metrics {
  import opened Wrappers
  import opened Data

  /** Query parameters in insertion order, which is the order they reach the query string. */
  type Params = seq<(string, Value)>

  /**
   * The metrics endpoint, `GET metrics/computed` with the given parameters. Its answer
   * is used as returned, without unwrapping.
   */
  type Api = Params -> seq<Dict>

  /** The value first given for `key`, if any. */
  function Lookup(params: Params, key: string): Option<Value> {
    if params == [] then None
    else if params[0].0 == key then Some(params[0].1)
    else Lookup(params[1..], key)
  }

  /** Position of each parameter name in the order the code inserts them. */
  function ParamRank(key: string): nat {
    if key == "service_name" then 0 else if key == "dc_name" then 1 else 2
  }

  /**
   * The parameters of `fetch_computed_metrics`: each argument that is truthy, under its
   * own name, in the order service_name, dc_name, timestamp; nothing else.
   */
  function QueryParams(serviceName: Value, dcName: Value, timestamp: Value): (params: Params)
    ensures Lookup(params, "service_name") == if Truthy(serviceName) then Some(serviceName) else None
    ensures Lookup(params, "dc_name") == if Truthy(dcName) then Some(dcName) else None
    ensures Lookup(params, "timestamp") == if Truthy(timestamp) then Some(timestamp) else None
    ensures forall i :: 0 <= i < |params| ==>
              params[i].0 == "service_name" || params[i].0 == "dc_name" || params[i].0 == "timestamp"
    ensures forall i, j :: 0 <= i < j < |params| ==> ParamRank(params[i].0) < ParamRank(params[j].0)
  {
    var withService := if Truthy(serviceName) then [("service_name", serviceName)] else [];
    var withDc := withService + if Truthy(dcName) then [("dc_name", dcName)] else [];
    var params := withDc + if Truthy(timestamp) then [("timestamp", timestamp)] else [];
    LookupAppend(withService, if Truthy(dcName) then [("dc_name", dcName)] else [], "service_name");
    LookupAppend(withService, if Truthy(dcName) then [("dc_name", dcName)] else [], "dc_name");
    LookupAppend(withService, if Truthy(dcName) then [("dc_name", dcName)] else [], "timestamp");
    LookupAppend(withDc, if Truthy(timestamp) then [("timestamp", timestamp)] else [], "service_name");
    LookupAppend(withDc, if Truthy(timestamp) then [("timestamp", timestamp)] else [], "dc_name");
    LookupAppend(withDc, if Truthy(timestamp) then [("timestamp", timestamp)] else [], "timestamp");
    params
  }

  /** A lookup in `a + b` finds the value in `a` when `a` gives one, and looks in `b` otherwise. */
  lemma {:induction false} LookupAppend(a: Params, b: Params, key: string)
    ensures Lookup(a + b, key) == if Lookup(a, key).Some? then Lookup(a, key) else Lookup(b, key)
  {
    if a != [] {
      assert (a + b)[1..] == a[1..] + b;
      LookupAppend(a[1..], b, key);
    } else {
      assert a + b == b;
    }
  }

  /**
   * `fetch_computed_metrics`: fill the parameter dict by conditional insertions, then
   * query the endpoint. The timestamp defaults to "latest", the other two to None.
   */
  method FetchComputedMetrics(api: Api, serviceName: Value := JNull, dcName: Value := JNull,
                              timestamp: Value := JStr("latest"))
    returns (metrics: seq<Dict>)
    ensures metrics == api(QueryParams(serviceName, dcName, timestamp))
  {
    var params: Params := [];
    if Truthy(serviceName) {
      params := params + [("service_name", serviceName)];
    }
    assert params == if Truthy(serviceName) then [("service_name", serviceName)] else [];
    if Truthy(dcName) {
      params := params + [("dc_name", dcName)];
    }
    if Truthy(timestamp) {
      params := params + [("timestamp", timestamp)];
    }
    assert params == QueryParams(serviceName, dcName, timestamp);
    metrics := api(params);
  }

  /** The record reports on data center `dcName` (`m.get('dc_name') == dc_name`). */
  predicate IsFor(m: Dict, dcName: Value) {
    Get(m, "dc_name") == dcName
  }

  /**
   * The first record of `metrics` that is for `dcName`, scanning from the front;
   * None when there is none.
   */
  function FirstMatch(metrics: seq<Dict>, dcName: Value): (r: Option<Dict>)
    ensures r.None? <==> forall i :: 0 <= i < |metrics| ==> !IsFor(metrics[i], dcName)
    ensures r.Some? ==> exists i :: 0 <= i < |metrics| && metrics[i] == r.value && IsFor(metrics[i], dcName)
                                   && forall j :: 0 <= j < i ==> !IsFor(metrics[j], dcName)
  {
    if metrics == [] then None
    else if IsFor(metrics[0], dcName) then Some(metrics[0])
    else
      var r := FirstMatch(metrics[1..], dcName);
      assert r.Some? ==> exists i :: 1 <= i < |metrics| && metrics[i] == r.value && IsFor(metrics[i], dcName)
                                     && forall j :: 0 <= j < i ==> !IsFor(metrics[j], dcName) by {
        if r.Some? {
          var k :| 0 <= k < |metrics| - 1 && metrics[1..][k] == r.value && IsFor(metrics[1..][k], dcName)
                   && forall j :: 0 <= j < k ==> !IsFor(metrics[1..][j], dcName);
          assert forall j :: 1 <= j < k + 1 ==> !IsFor(metrics[j], dcName) by {
            forall j | 1 <= j < k + 1 ensures !IsFor(metrics[j], dcName) {
              assert metrics[j] == metrics[1..][j - 1];
            }
          }
        }
      }
      r
  }

  /** The first match is the record at the first index that matches, whatever follows it. */
  lemma FirstMatchAt(metrics: seq<Dict>, dcName: Value, p: nat)
    requires p < |metrics| && IsFor(metrics[p], dcName)
    requires forall j :: 0 <= j < p ==> !IsFor(metrics[j], dcName)
    ensures FirstMatch(metrics, dcName) == Some(metrics[p])
  {
    var r := FirstMatch(metrics, dcName);
    var i :| 0 <= i < |metrics| && metrics[i] == r.value && IsFor(metrics[i], dcName)
             && forall j :: 0 <= j < i ==> !IsFor(metrics[j], dcName);
    assert i == p;
  }
}
