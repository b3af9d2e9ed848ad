/** A workload VPC (class `Workload`): its attachment to the core network under
    one segment, and the default routes that send its isolated subnets' traffic
    to the core network. */
module Workload {
  import opened Network
  import Arns
  import Policy

  /** One CloudFormation tag `{ Key, Value }`. */
  datatype Tag = Tag(key: string, value: string)

  /** The `AWS::NetworkManager::VpcAttachment` desired state, before `JSON.stringify`. */
  datatype DesiredState = DesiredState(coreNetworkId: string, vpcArn: string, subnetArns: seq<string>, tags: seq<Tag>)

  /** A template string renders a missing region as `undefined`. */
  function RegionText(region: Option<string>): string
  {
    match region
    case Some(r) => r
    case None => "undefined"
  }

  function TagKeys(tags: seq<Tag>): set<string>
  {
    set t | t in tags :: t.key
  }

  /** The `desiredState` callback, once the core network id, the VPC id, the
      account id, the provider's region and the subnet ids have resolved. */
  function AttachmentDesiredState(coreNetworkId: string, vpcId: string, accountId: string, region: Option<string>,
                                  subnetIds: seq<string>, cloudWanSegment: string): (d: DesiredState)
    ensures d.coreNetworkId == coreNetworkId
    ensures |d.tags| == 1 && d.tags[0].key == cloudWanSegment && d.tags[0].value == "cloudwan-segment"
    ensures TagKeys(d.tags) == {cloudWanSegment}
  {
    var regionId := RegionText(region);
    DesiredState(coreNetworkId,
                 Arns.VpcArn(regionId, accountId, vpcId),
                 Arns.SubnetArns(regionId, accountId, subnetIds),
                 [Tag(cloudWanSegment, "cloudwan-segment")])
  }

  /** The subnet ARNs match the subnet ids one for one, in order, and each reads
      back as its id; the VPC ARN names the VPC in the same region and account. */
  lemma DesiredStateArns(coreNetworkId: string, vpcId: string, accountId: string, region: Option<string>,
                         subnetIds: seq<string>, cloudWanSegment: string)
    requires ':' !in RegionText(region) && ':' !in accountId
    ensures var d := AttachmentDesiredState(coreNetworkId, vpcId, accountId, region, subnetIds, cloudWanSegment);
            && |d.subnetArns| == |subnetIds|
            && (forall i :: 0 <= i < |subnetIds| ==>
                  d.subnetArns[i] == Arns.SubnetArn(RegionText(region), accountId, subnetIds[i])
                  && Arns.SubnetIdOf(d.subnetArns[i]) == Some(subnetIds[i]))
            && Arns.Parse(d.vpcArn) == Some(Arns.Arn("aws", "ec2", RegionText(region), accountId, "vpc/" + vpcId))
  {
    Arns.SubnetArnsRoundTrip(RegionText(region), accountId, subnetIds);
    Arns.VpcArnFields(RegionText(region), accountId, vpcId);
  }

  /** The hub puts a workload attachment in the segment its tag names when the
      hub policy declares a rule for it (`prod`, `sharedservices`); any other
      segment name, such as `nonprod`, leaves the attachment unassociated. */
  lemma WorkloadAttachmentSegment(euId: string, usId: string, coreNetworkId: string, vpcId: string, accountId: string,
                                  region: Option<string>, subnetIds: seq<string>, cloudWanSegment: string)
    ensures var d := AttachmentDesiredState(coreNetworkId, vpcId, accountId, region, subnetIds, cloudWanSegment);
            Policy.AssociatedSegment(Policy.HubPolicy(euId, usId), TagKeys(d.tags)) ==
              if cloudWanSegment in {"prod", "sharedservices"} then Some(cloudWanSegment) else None
  {
    var d := AttachmentDesiredState(coreNetworkId, vpcId, accountId, region, subnetIds, cloudWanSegment);
    Policy.HubPolicyAssociation(euId, usId, TagKeys(d.tags));
  }

  const DefaultRoutePrefix: string := "DefaultRouteToCloudWan-"

  /** The route one isolated subnet gets, if it has a route table. */
  function DefaultRoute(coreNetworkArn: string, subnet: Subnet): Option<Route>
  {
    if subnet.routeTable.Some?
    then Some(Route(DefaultRoutePrefix + subnet.subnetName, subnet.routeTable.value, AnyDestination, CoreNetwork(coreNetworkArn)))
    else None
  }

  function ToCoreNetwork(coreNetworkArn: string): Subnet -> Option<Route>
  {
    subnet => DefaultRoute(coreNetworkArn, subnet)
  }

  /** The `vpc.isolatedSubnets.then(subnets => subnets.forEach(...))` loop, once
      the subnets have resolved: one `aws.ec2.Route` per subnet with a route table. */
  method CreateDefaultRoutes(subnets: seq<Subnet>, coreNetworkArn: string) returns (routes: seq<Route>)
    ensures routes == PlannedRoutes(subnets, ToCoreNetwork(coreNetworkArn))
  {
    routes := [];
    var i := 0;
    while i < |subnets|
      invariant 0 <= i <= |subnets|
      invariant routes == PlannedRoutes(subnets[..i], ToCoreNetwork(coreNetworkArn))
    {
      var subnet := subnets[i];
      if subnet.routeTable.Some? {
        routes := routes + [Route(DefaultRoutePrefix + subnet.subnetName, subnet.routeTable.value, AnyDestination, CoreNetwork(coreNetworkArn))];
      }
      assert subnets[..i + 1][..i] == subnets[..i];
      i := i + 1;
    }
    assert subnets[..i] == subnets;
  }

  /** Every default route goes to 0.0.0.0/0 through the core network, from the
      route table of a subnet that has one, and is named after that subnet. */
  lemma DefaultRoutesSound(subnets: seq<Subnet>, coreNetworkArn: string, r: Route)
    requires r in PlannedRoutes(subnets, ToCoreNetwork(coreNetworkArn))
    ensures exists s :: s in subnets && s.routeTable.Some?
              && r == Route(DefaultRoutePrefix + s.subnetName, s.routeTable.value, AnyDestination, CoreNetwork(coreNetworkArn))
  {
    PlannedRoutesMembers(subnets, ToCoreNetwork(coreNetworkArn), r);
    var k :| 0 <= k < |subnets| && ToCoreNetwork(coreNetworkArn)(subnets[k]) == Some(r);
  }

  /** With the ARN built from the account and core network id, every default
      route's target reads back as that core network, a global resource with an
      empty region field. */
  lemma DefaultRoutesTargetCoreNetwork(subnets: seq<Subnet>, accountId: string, coreNetworkId: string, r: Route)
    requires ':' !in accountId
    requires r in PlannedRoutes(subnets, ToCoreNetwork(Arns.CoreNetworkArn(accountId, coreNetworkId)))
    ensures r.target.CoreNetwork?
    ensures Arns.Parse(r.target.coreNetworkArn)
         == Some(Arns.Arn("aws", "networkmanager", "", accountId, "core-network/" + coreNetworkId))
  {
    DefaultRoutesSound(subnets, Arns.CoreNetworkArn(accountId, coreNetworkId), r);
    Arns.CoreNetworkArnFields(accountId, coreNetworkId);
  }

  /** With distinct subnet names, a subnet gets a default route if and only if it
      has a route table, and then exactly one; subnets without one get none. */
  lemma DefaultRouteIff(subnets: seq<Subnet>, coreNetworkArn: string, i: nat)
    requires DistinctSubnetNames(subnets)
    requires i < |subnets|
    ensures DistinctRouteNames(PlannedRoutes(subnets, ToCoreNetwork(coreNetworkArn)))
    ensures subnets[i].routeTable.Some? <==>
              exists r :: r in PlannedRoutes(subnets, ToCoreNetwork(coreNetworkArn))
                && r.name == DefaultRoutePrefix + subnets[i].subnetName
  {
    PlannedRoutesDistinctNames(subnets, ToCoreNetwork(coreNetworkArn), DefaultRoutePrefix);
    PlannedRouteFor(subnets, ToCoreNetwork(coreNetworkArn), DefaultRoutePrefix, i);
  }

  /** The workload VPC: a single isolated tier of /24 subnets, in
      `numberOfAzs ?? 2` zones. */
  function WorkloadVpc(name: string, vpcCidr: string, numberOfAzs: Option<int>): (v: VpcSpec)
    ensures v.cidrBlock == vpcCidr
    ensures numberOfAzs.None? ==> v.numberOfAvailabilityZones == 2
    ensures numberOfAzs.Some? ==> v.numberOfAvailabilityZones == numberOfAzs.value
    ensures |v.subnets| == 1 && v.subnets[0].role == Isolated && v.subnets[0].cidrMask == 24
  {
    VpcSpec(vpcCidr, NumberOfAzs(numberOfAzs), [SubnetTier(Isolated, "Workload", 24)],
            map["Name" := "WorkloadVpc-" + name])
  }
}
