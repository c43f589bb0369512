/**
 * Grouping data centers by geographic region: a map from every known region name to
 * the list of data centers that name it, in the order the regions and data centers
 * were fetched.
 */
module Grouping {
  import opened Wrappers
  import opened Data

  const RegionKey := "geo_region_name"

  /** The key a region record contributes, `g['geo_region_name']`, or the exception it raises. */
  function RegionName(g: Dict): Result<Value, Error> {
    if RegionKey !in g then Err(KeyError(RegionKey))
    else if !Hashable(g[RegionKey]) then Err(Unhashable(g[RegionKey]))
    else Ok(g[RegionKey])
  }

  /** The region a data center names, `dc.get('geo_region_name')`. */
  function RegionOf(dc: Dict): Value {
    Get(dc, RegionKey)
  }

  /**
   * The keys of `{g['geo_region_name']: [] for g in georegions}` in insertion order:
   * a name already present keeps its place.
   */
  function RegionKeys(regions: seq<Dict>): (r: Result<seq<Value>, Error>)
    ensures r.Ok? ==> |r.value| <= |regions|
    ensures r.Err? ==> r.error.KeyError? || r.error.Unhashable?
  {
    if regions == [] then Ok([])
    else
      match RegionKeys(regions[..|regions| - 1]) {
        case Err(e) => Err(e)
        case Ok(keys) =>
          match RegionName(regions[|regions| - 1]) {
            case Err(e) => Err(e)
            case Ok(name) => Ok(if name in keys then keys else keys + [name])
          }
      }
  }

  /** The map after appending each data center to the list of its region, when that is a key. */
  function Assign(keys: seq<Value>, dcs: seq<Dict>): (r: Result<map<Value, seq<Dict>>, Error>)
    ensures r.Err? ==> r.error.Unhashable?
  {
    if dcs == [] then Ok(map k | k in keys :: [])
    else
      match Assign(keys, dcs[..|dcs| - 1]) {
        case Err(e) => Err(e)
        case Ok(lists) =>
          var dc := dcs[|dcs| - 1];
          if !Hashable(RegionOf(dc)) then Err(Unhashable(RegionOf(dc)))
          else if RegionOf(dc) in lists then Ok(lists[RegionOf(dc) := lists[RegionOf(dc)] + [dc]])
          else Ok(lists)
      }
  }

  /** An insertion-ordered dict from region name to its data centers. */
  datatype Grouping = Grouping(order: seq<Value>, lists: map<Value, seq<Dict>>)

  /** `georegion_map` once every data center has been placed. */
  function Group(regions: seq<Dict>, dcs: seq<Dict>): Result<Grouping, Error> {
    match RegionKeys(regions) {
      case Err(e) => Err(e)
      case Ok(keys) =>
        match Assign(keys, dcs) {
          case Err(e) => Err(e)
          case Ok(lists) => Ok(Grouping(keys, lists))
        }
    }
  }

  /** The data centers of `dcs` that name `region`, in their input order. */
  function Members(dcs: seq<Dict>, region: Value): seq<Dict> {
    if dcs == [] then []
    else Members(dcs[..|dcs| - 1], region) + if RegionOf(dcs[|dcs| - 1]) == region then [dcs[|dcs| - 1]] else []
  }

  /** Members is a filter that keeps input order: it distributes over concatenation. */
  lemma {:induction false} MembersAppend(a: seq<Dict>, b: seq<Dict>, region: Value)
    ensures Members(a + b, region) == Members(a, region) + Members(b, region)
  {
    if b == [] {
      assert a + b == a;
    } else {
      var n := |b| - 1;
      assert (a + b)[..|a + b| - 1] == a + b[..n];
      MembersAppend(a, b[..n], region);
      assert (a + b)[|a + b| - 1] == b[n];
    }
  }

  /** On a single data center, Members keeps it exactly when it names the region. */
  lemma MembersSingle(dc: Dict, region: Value)
    ensures Members([dc], region) == if RegionOf(dc) == region then [dc] else []
  {
    assert [dc][..0] == [];
  }

  /** A data center is in the list of `region` iff it names that region. */
  lemma {:induction false} MembersMembership(dcs: seq<Dict>, region: Value, dc: Dict)
    ensures dc in Members(dcs, region) <==> dc in dcs && RegionOf(dc) == region
  {
    if dcs != [] {
      var n := |dcs| - 1;
      MembersMembership(dcs[..n], region, dc);
      assert dcs == dcs[..n] + [dcs[n]];
    }
  }

  /** The name of each region record, when it has a usable one. */
  predicate NameIs(regions: seq<Dict>, p: int, name: Value)
    requires 0 <= p < |regions|
  {
    RegionName(regions[p]) == Ok(name)
  }

  /**
   * The map comprehension over the regions fails exactly when some record has no
   * usable name, and then with the exception of the first such record.
   */
  lemma {:induction false} RegionKeysError(regions: seq<Dict>)
    ensures RegionKeys(regions).Err? <==> exists p :: 0 <= p < |regions| && RegionName(regions[p]).Err?
    ensures RegionKeys(regions).Err? ==>
              exists p :: 0 <= p < |regions| && RegionName(regions[p]) == Err(RegionKeys(regions).error)
                          && forall q :: 0 <= q < p ==> RegionName(regions[q]).Ok?
  {
    if regions != [] {
      var n := |regions| - 1;
      var init := regions[..n];
      RegionKeysError(init);
      assert forall p :: 0 <= p < n ==> regions[p] == init[p];
      if RegionKeys(init).Err? {
        var p :| 0 <= p < n && RegionName(init[p]) == Err(RegionKeys(init).error)
                 && forall q :: 0 <= q < p ==> RegionName(init[q]).Ok?;
        assert RegionName(regions[p]) == Err(RegionKeys(init).error);
      }
    }
  }

  /** When it succeeds, its keys are exactly the region names, each once. */
  lemma {:induction false} RegionKeysContents(regions: seq<Dict>)
    requires RegionKeys(regions).Ok?
    ensures var keys := RegionKeys(regions).value;
            && (forall i, j :: 0 <= i < j < |keys| ==> keys[i] != keys[j])
            && (forall p :: 0 <= p < |regions| ==> RegionName(regions[p]).Ok? && RegionName(regions[p]).value in keys)
            && (forall k :: k in keys ==> exists p :: 0 <= p < |regions| && NameIs(regions, p, k))
  {
    if regions != [] {
      var n := |regions| - 1;
      var init := regions[..n];
      RegionKeysContents(init);
      assert forall p :: 0 <= p < n ==> regions[p] == init[p];
      var keys := RegionKeys(init).value;
      assert NameIs(regions, n, RegionName(regions[n]).value);
      forall k | k in keys ensures exists p :: 0 <= p < |regions| && NameIs(regions, p, k) {
        var p :| 0 <= p < n && NameIs(init, p, k);
        assert NameIs(regions, p, k);
      }
    }
  }

  /**
   * Its keys are ordered by first occurrence: the keys the first `i` regions produce
   * are a prefix of the keys all of them produce, so a name met earlier is never
   * placed after a name met later.
   */
  lemma {:induction false} RegionKeysPrefix(regions: seq<Dict>, i: nat)
    requires i <= |regions| && RegionKeys(regions).Ok?
    ensures RegionKeys(regions[..i]).Ok? && RegionKeys(regions[..i]).value <= RegionKeys(regions).value
  {
    if i < |regions| {
      var n := |regions| - 1;
      assert regions[..n][..i] == regions[..i];
      RegionKeysPrefix(regions[..n], i);
    } else {
      assert regions[..i] == regions;
    }
  }

  /**
   * The loop over data centers: it fails on the first data center whose region is a
   * list or dict (Python cannot look it up), and otherwise gives every key the list
   * of exactly the data centers that name it, in input order.
   */
  lemma {:induction false} AssignSpec(keys: seq<Value>, dcs: seq<Dict>)
    ensures Assign(keys, dcs).Err? <==> exists i :: 0 <= i < |dcs| && !Hashable(RegionOf(dcs[i]))
    ensures Assign(keys, dcs).Err? ==>
              exists i :: 0 <= i < |dcs| && Assign(keys, dcs).error == Unhashable(RegionOf(dcs[i]))
                          && forall j :: 0 <= j < i ==> Hashable(RegionOf(dcs[j]))
    ensures Assign(keys, dcs).Ok? ==>
              && (forall k :: k in Assign(keys, dcs).value <==> k in keys)
              && forall k :: k in keys ==> Assign(keys, dcs).value[k] == Members(dcs, k)
  {
    if dcs != [] {
      var n := |dcs| - 1;
      var init := dcs[..n];
      AssignSpec(keys, init);
      assert forall i :: 0 <= i < n ==> dcs[i] == init[i];
      match Assign(keys, init) {
        case Err(e) =>
          var i :| 0 <= i < n && e == Unhashable(RegionOf(init[i])) && forall j :: 0 <= j < i ==> Hashable(RegionOf(init[j]));
          assert e == Unhashable(RegionOf(dcs[i]));
        case Ok(lists) =>
      }
    }
  }

  /**
   * The grouping of a successful run: its keys are the region names, each once, in
   * first-occurrence order, and each list holds the data centers naming that key, in
   * input order.
   */
  lemma GroupSpec(regions: seq<Dict>, dcs: seq<Dict>)
    requires Group(regions, dcs).Ok?
    ensures var g := Group(regions, dcs).value;
            && g.order == RegionKeys(regions).value
            && (forall i, j :: 0 <= i < j < |g.order| ==> g.order[i] != g.order[j])
            && (forall k :: k in g.lists <==> k in g.order)
            && (forall p :: 0 <= p < |regions| ==> RegionName(regions[p]).Ok? && RegionName(regions[p]).value in g.order)
            && (forall k :: k in g.order ==> exists p :: 0 <= p < |regions| && NameIs(regions, p, k))
            && (forall k :: k in g.lists ==> g.lists[k] == Members(dcs, k))
  {
    RegionKeysContents(regions);
    AssignSpec(RegionKeys(regions).value, dcs);
  }

  /**
   * A data center is in the list of a known region iff it names that region; so it is
   * in at most one list, and in none when its region is unknown.
   */
  lemma GroupMembership(regions: seq<Dict>, dcs: seq<Dict>, region: Value, dc: Dict)
    requires Group(regions, dcs).Ok? && region in Group(regions, dcs).value.lists
    ensures dc in Group(regions, dcs).value.lists[region] <==> dc in dcs && RegionOf(dc) == region
  {
    GroupSpec(regions, dcs);
    MembersMembership(dcs, region, dc);
  }

  /** Every key of a successful grouping has a list. */
  lemma GroupHasLists(regions: seq<Dict>, dcs: seq<Dict>)
    requires Group(regions, dcs).Ok?
    ensures forall k :: k in Group(regions, dcs).value.order ==> k in Group(regions, dcs).value.lists
  {
    GroupSpec(regions, dcs);
  }

  /**
   * `georegion_map` as the code builds it: the comprehension over the regions, then a
   * loop appending each data center to the list of its region.
   */
  method GroupByRegion(regions: seq<Dict>, dcs: seq<Dict>) returns (r: Result<Grouping, Error>)
    ensures r == Group(regions, dcs)
  {
    var order: seq<Value> := [];
    var lists: map<Value, seq<Dict>> := map[];
    var i := 0;
    while i < |regions|
      invariant 0 <= i <= |regions|
      invariant RegionKeys(regions[..i]) == Ok(order)
      invariant lists == map k | k in order :: []
    {
      assert regions[..i + 1][..i] == regions[..i];
      var g := regions[i];
      if RegionKey !in g {
        RegionKeysStops(regions, i + 1);
        return Err(KeyError(RegionKey));
      }
      var name := g[RegionKey];
      if !Hashable(name) {
        RegionKeysStops(regions, i + 1);
        return Err(Unhashable(name));
      }
      if name !in lists {
        order := order + [name];
      }
      lists := lists[name := []];
      i := i + 1;
    }
    assert regions[..i] == regions;
    var j := 0;
    while j < |dcs|
      invariant 0 <= j <= |dcs|
      invariant Assign(order, dcs[..j]) == Ok(lists)
    {
      assert dcs[..j + 1][..j] == dcs[..j];
      var dc := dcs[j];
      var name := Get(dc, RegionKey);
      if !Hashable(name) {
        AssignStops(order, dcs, j + 1);
        return Err(Unhashable(name));
      }
      if name in lists {
        lists := lists[name := lists[name] + [dc]];
      }
      j := j + 1;
    }
    assert dcs[..j] == dcs;
    return Ok(Grouping(order, lists));
  }

  /** Once a prefix of the regions raises, so does the whole comprehension, with the same exception. */
  lemma {:induction false} RegionKeysStops(regions: seq<Dict>, i: nat)
    requires i <= |regions| && RegionKeys(regions[..i]).Err?
    ensures RegionKeys(regions) == RegionKeys(regions[..i])
  {
    if i < |regions| {
      assert regions[..|regions| - 1][..i] == regions[..i];
      RegionKeysStops(regions[..|regions| - 1], i);
    } else {
      assert regions[..i] == regions;
    }
  }

  /** Once a prefix of the data centers raises, so does the whole loop, with the same exception. */
  lemma {:induction false} AssignStops(keys: seq<Value>, dcs: seq<Dict>, j: nat)
    requires j <= |dcs| && Assign(keys, dcs[..j]).Err?
    ensures Assign(keys, dcs) == Assign(keys, dcs[..j])
  {
    if j < |dcs| {
      assert dcs[..|dcs| - 1][..j] == dcs[..j];
      AssignStops(keys, dcs[..|dcs| - 1], j);
    } else {
      assert dcs[..j] == dcs;
    }
  }
}
