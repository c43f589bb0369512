/**
 * A worked run: regions us-east and us-west, two data centers in us-east, one in
 * us-west, one naming an unknown region, and two services.
 */
module Scenario {
  import opened Wrappers
  import opened Data
  import opened Metrics
  import opened Grouping
  import opened Report

  function DataCenter(name: string, region: string): Dict {
    map["dc_name" := JStr(name), RegionKey := JStr(region)]
  }

  const East := JStr("us-east")
  const West := JStr("us-west")
  const Regions: seq<Dict> := [map[RegionKey := East], map[RegionKey := West]]
  const DataCenters: seq<Dict> := [DataCenter("e1", "us-east"), DataCenter("w1", "us-west"),
                                   DataCenter("e2", "us-east"), DataCenter("x1", "moon")]
  const Services: seq<Dict> := [map["service_name" := JStr("compute")], map["service_name" := JStr("storage")]]

  lemma ScenarioKeys()
    ensures RegionKeys(Regions) == Ok([East, West])
  {
    var regions := Regions;
    assert RegionName(regions[0]) == Ok(East) && RegionName(regions[1]) == Ok(West);
    var first := regions[..1];
    assert first[..|first| - 1] == [] && first[|first| - 1] == regions[0];
    assert RegionKeys(first) == Ok([] + [East]);
    assert [] + [East] == [East];
    assert "us-west"[3] != "us-east"[3];
    assert West !in [East];
    assert regions[..|regions| - 1] == first && regions[|regions| - 1] == regions[1];
    assert RegionKeys(regions) == Ok([East] + [West]);
    assert [East] + [West] == [East, West];
  }

  /** The members of a region among four data centers, from the regions they name. */
  lemma MembersOfFour(a: Dict, b: Dict, c: Dict, d: Dict, region: Value)
    ensures Members([a, b, c, d], region) ==
              (if RegionOf(a) == region then [a] else []) + (if RegionOf(b) == region then [b] else [])
              + (if RegionOf(c) == region then [c] else []) + (if RegionOf(d) == region then [d] else [])
  {
    MembersAppend([a, b, c], [d], region);
    MembersAppend([a, b], [c], region);
    MembersAppend([a], [b], region);
    MembersSingle(a, region);
    MembersSingle(b, region);
    MembersSingle(c, region);
    MembersSingle(d, region);
    assert [a, b, c, d] == [a, b, c] + [d];
    assert [a, b, c] == [a, b] + [c];
    assert [a, b] == [a] + [b];
  }

  lemma ScenarioMembers()
    ensures Members(DataCenters, East) == [DataCenters[0], DataCenters[2]]
    ensures Members(DataCenters, West) == [DataCenters[1]]
  {
    var dcs := DataCenters;
    assert RegionOf(dcs[0]) == East && RegionOf(dcs[1]) == West && RegionOf(dcs[2]) == East;
    assert RegionOf(dcs[3]) == JStr("moon");
    assert "moon"[0] != "us-east"[0];
    assert "us-west"[3] != "us-east"[3];
    assert dcs == [dcs[0], dcs[1], dcs[2], dcs[3]];
    MembersOfFour(dcs[0], dcs[1], dcs[2], dcs[3], East);
    MembersOfFour(dcs[0], dcs[1], dcs[2], dcs[3], West);
  }

  /** The grouping succeeds with the keys in fetch order. */
  lemma ScenarioOrder()
    ensures Group(Regions, DataCenters).Ok?
    ensures Group(Regions, DataCenters).value.order == [East, West]
    ensures Members(DataCenters, East) == [DataCenters[0], DataCenters[2]]
    ensures Members(DataCenters, West) == [DataCenters[1]]
  {
    ScenarioKeys();
    ScenarioMembers();
    var dcs := DataCenters;
    AssignSpec([East, West], dcs);
    assert RegionOf(dcs[0]) == East && RegionOf(dcs[1]) == West && RegionOf(dcs[2]) == East;
    assert RegionOf(dcs[3]) == JStr("moon");
  }

  /** The orphan goes nowhere; us-east holds e1 and e2, us-west holds w1. */
  lemma ScenarioGroup()
    ensures Group(Regions, DataCenters).Ok?
    ensures Group(Regions, DataCenters).value.order == [East, West]
    ensures Group(Regions, DataCenters).value.lists == map[East := [DataCenters[0], DataCenters[2]], West := [DataCenters[1]]]
    ensures forall k :: k in Group(Regions, DataCenters).value.lists ==>
              DataCenters[3] !in Group(Regions, DataCenters).value.lists[k]
  {
    ScenarioOrder();
    var dcs := DataCenters;
    GroupSpec(Regions, dcs);
    var lists := Group(Regions, dcs).value.lists;
    assert lists.Keys == {East, West};
    assert RegionOf(dcs[3]) == JStr("moon");
    assert "moon"[0] != "us-east"[0] && "moon"[0] != "us-west"[0];
    forall k | k in lists ensures dcs[3] !in lists[k] {
      GroupMembership(Regions, dcs, k, dcs[3]);
    }
  }

  /**
   * us-east gets a file of 2 * 2 rows, us-west one of 1 * 2 rows, in that order, and
   * the run ends without an exception.
   */
  lemma TwoRegions(api: Api)
    ensures var rep := Pipeline(Regions, DataCenters, Services, api);
            && rep.failure == None
            && |rep.written| == 2
            && rep.written[0].region == East && |rep.written[0].rows| == 4
            && rep.written[1].region == West && |rep.written[1].rows| == 2
  {
    ScenarioOrder();
    PipelineFiles(Regions, DataCenters, Services, api);
    PipelineOutcome(Regions, DataCenters, Services, api);
  }
}
