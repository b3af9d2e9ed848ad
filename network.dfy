/** The values both stacks share once Pulumi has resolved them: subnets as awsx
    hands them over, the arguments of an `aws.ec2.Route`, the layout of a VPC, and
    the route emission that both stacks write as a `forEach` with an `if` inside. */
module Network {

  datatype Option<+T> = None | Some(value: T)

  /** The tier type awsx gives a subnet. */
  datatype SubnetRole = Isolated | Private | Public

  /** One resolved awsx subnet. `routeTable` is the id of its route table, absent
      while awsx has not produced one (the `subnet.routeTable` guard in the source). */
  datatype Subnet = Subnet(subnetName: string, role: SubnetRole, availabilityZone: string, routeTable: Option<string>)

  /** Where a route sends its traffic: a firewall endpoint or the core network. */
  datatype RouteTarget = VpcEndpoint(vpcEndpointId: string) | CoreNetwork(coreNetworkArn: string)

  /** The arguments of one `new aws.ec2.Route(name, { ... })` call. */
  datatype Route = Route(name: string, routeTableId: string, destinationCidrBlock: string, target: RouteTarget)

  /** The destination of every default route. */
  const AnyDestination: string := "0.0.0.0/0"

  /** One entry of the `subnets` argument of `new awsx.ec2.Vpc`. */
  datatype SubnetTier = SubnetTier(role: SubnetRole, name: string, cidrMask: int)

  /** The arguments of `new awsx.ec2.Vpc(name, { ... })`. */
  datatype VpcSpec = VpcSpec(cidrBlock: string, numberOfAvailabilityZones: int, subnets: seq<SubnetTier>, tags: map<string, string>)

  /** `numberOfAzs ?? 2`: only a missing count falls back to two zones. */
  function NumberOfAzs(numberOfAzs: Option<int>): int
  {
    match numberOfAzs
    case Some(n) => n
    case None => 2
  }

  /** `vpc.isolatedSubnets`, `vpc.privateSubnets`, `vpc.publicSubnets`: the
      subnets of one tier, in the order awsx lists them. */
  function WithRole(subnets: seq<Subnet>, role: SubnetRole): (r: seq<Subnet>)
    ensures |r| <= |subnets|
  {
    if |subnets| == 0 then []
    else
      var last := subnets[|subnets| - 1];
      WithRole(subnets[..|subnets| - 1], role) + (if last.role == role then [last] else [])
  }

  lemma {:induction false} WithRoleMembers(subnets: seq<Subnet>, role: SubnetRole, s: Subnet)
    ensures s in WithRole(subnets, role) <==> s in subnets && s.role == role
  {
    if |subnets| > 0 {
      var init := subnets[..|subnets| - 1];
      WithRoleMembers(init, role, s);
      assert subnets == init + [subnets[|subnets| - 1]];
    }
  }

  lemma {:induction false} WithRoleCons(s: Subnet, rest: seq<Subnet>, role: SubnetRole)
    ensures WithRole([s] + rest, role) == (if s.role == role then [s] else []) + WithRole(rest, role)
  {
    if |rest| == 0 {
      assert [s] + rest == [s];
      assert [s][..0] == [];
    } else {
      var n := |rest| - 1;
      WithRoleCons(s, rest[..n], role);
      assert ([s] + rest)[..|[s] + rest| - 1] == [s] + rest[..n];
    }
  }

  /** No two subnets share a name (awsx names them `<tier>-<n>`). */
  ghost predicate DistinctSubnetNames(subnets: seq<Subnet>)
  {
    forall i, j :: 0 <= i < j < |subnets| ==> subnets[i].subnetName != subnets[j].subnetName
  }

  /** No two routes share a name: Pulumi refuses two resources with one name. */
  ghost predicate DistinctRouteNames(routes: seq<Route>)
  {
    forall i, j :: 0 <= i < j < |routes| ==> routes[i].name != routes[j].name
  }

  lemma {:induction false} WithRoleKeepsDistinctNames(subnets: seq<Subnet>, role: SubnetRole)
    requires DistinctSubnetNames(subnets)
    ensures DistinctSubnetNames(WithRole(subnets, role))
  {
    if |subnets| > 0 {
      var init := subnets[..|subnets| - 1];
      var last := subnets[|subnets| - 1];
      WithRoleKeepsDistinctNames(init, role);
      var r := WithRole(init, role);
      if last.role == role {
        forall i | 0 <= i < |r|
          ensures r[i].subnetName != last.subnetName
        {
          WithRoleMembers(init, role, r[i]);
          var k :| 0 <= k < |init| && init[k] == r[i];
        }
      }
    }
  }

  /** The routes that a `subnets.forEach(subnet => { if (...) new aws.ec2.Route(...) })`
      registers, when `plan` gives the route a subnet gets (or none). */
  function PlannedRoutes(subnets: seq<Subnet>, plan: Subnet -> Option<Route>): (routes: seq<Route>)
    ensures |routes| <= |subnets|
  {
    if |subnets| == 0 then []
    else
      var last := subnets[|subnets| - 1];
      PlannedRoutes(subnets[..|subnets| - 1], plan) + (match plan(last) case Some(r) => [r] case None => [])
  }

  lemma {:induction false} PlannedRoutesCons(s: Subnet, rest: seq<Subnet>, plan: Subnet -> Option<Route>)
    ensures PlannedRoutes([s] + rest, plan)
         == (match plan(s) case Some(r) => [r] case None => []) + PlannedRoutes(rest, plan)
  {
    if |rest| == 0 {
      assert [s] + rest == [s];
      assert [s][..0] == [];
    } else {
      var n := |rest| - 1;
      PlannedRoutesCons(s, rest[..n], plan);
      assert ([s] + rest)[..|[s] + rest| - 1] == [s] + rest[..n];
    }
  }

  /** A route is emitted exactly when some subnet's plan yields it. */
  lemma {:induction false} PlannedRoutesMembers(subnets: seq<Subnet>, plan: Subnet -> Option<Route>, r: Route)
    ensures r in PlannedRoutes(subnets, plan) <==> exists i :: 0 <= i < |subnets| && plan(subnets[i]) == Some(r)
  {
    if |subnets| > 0 {
      var init := subnets[..|subnets| - 1];
      PlannedRoutesMembers(init, plan, r);
      if r in PlannedRoutes(subnets, plan) && r !in PlannedRoutes(init, plan) {
        assert plan(subnets[|subnets| - 1]) == Some(r);
      }
      if exists i :: 0 <= i < |subnets| && plan(subnets[i]) == Some(r) {
        var i :| 0 <= i < |subnets| && plan(subnets[i]) == Some(r);
        if i < |subnets| - 1 {
          assert init[i] == subnets[i];
        }
      }
    }
  }

  /** When every route is named `prefix + subnetName`, distinct subnet names give
      distinct route names: no subnet gets two routes. */
  lemma {:induction false} PlannedRoutesDistinctNames(subnets: seq<Subnet>, plan: Subnet -> Option<Route>, prefix: string)
    requires forall s :: plan(s).Some? ==> plan(s).value.name == prefix + s.subnetName
    requires DistinctSubnetNames(subnets)
    ensures DistinctRouteNames(PlannedRoutes(subnets, plan))
  {
    if |subnets| > 0 {
      var init := subnets[..|subnets| - 1];
      var last := subnets[|subnets| - 1];
      PlannedRoutesDistinctNames(init, plan, prefix);
      var rs := PlannedRoutes(init, plan);
      if plan(last).Some? {
        forall i | 0 <= i < |rs|
          ensures rs[i].name != plan(last).value.name
        {
          PlannedRoutesMembers(init, plan, rs[i]);
          var k :| 0 <= k < |init| && plan(init[k]) == Some(rs[i]);
          PrefixCancels(prefix, init[k].subnetName, last.subnetName);
        }
      }
    }
  }

  /** A subnet named in the list gets a route named `prefix + subnetName` exactly
      when its plan yields one, and then that one. */
  lemma PlannedRouteFor(subnets: seq<Subnet>, plan: Subnet -> Option<Route>, prefix: string, i: nat)
    requires forall s :: plan(s).Some? ==> plan(s).value.name == prefix + s.subnetName
    requires DistinctSubnetNames(subnets)
    requires i < |subnets|
    ensures plan(subnets[i]).Some? <==>
              exists r :: r in PlannedRoutes(subnets, plan) && r.name == prefix + subnets[i].subnetName
    ensures forall r :: r in PlannedRoutes(subnets, plan) && r.name == prefix + subnets[i].subnetName ==>
              plan(subnets[i]) == Some(r)
  {
    var out := PlannedRoutes(subnets, plan);
    if plan(subnets[i]).Some? {
      PlannedRoutesMembers(subnets, plan, plan(subnets[i]).value);
    }
    forall r | r in out && r.name == prefix + subnets[i].subnetName
      ensures plan(subnets[i]) == Some(r)
    {
      PlannedRoutesMembers(subnets, plan, r);
      var k :| 0 <= k < |subnets| && plan(subnets[k]) == Some(r);
      PrefixCancels(prefix, subnets[k].subnetName, subnets[i].subnetName);
    }
  }

  lemma PrefixCancels(prefix: string, a: string, b: string)
    ensures prefix + a == prefix + b <==> a == b
  {
    if prefix + a == prefix + b {
      assert a == (prefix + a)[|prefix|..];
      assert b == (prefix + b)[|prefix|..];
    }
  }
}
