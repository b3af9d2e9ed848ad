/** The inspection VPC of one region (class `Inspection`): where the network
    firewall has placed its per-zone endpoints, the routes that send the
    attachment and public subnets through them, and the VPC attachment and
    firewall subnet mappings built from the VPC's subnet ids. */
module Firewall {
  import opened Network
  import Arns

  /** One endpoint the firewall reports in a zone. */
  datatype Attachment = Attachment(endpointId: string, subnetId: string)

  /** The firewall's report for one availability zone. */
  datatype SyncState = SyncState(availabilityZone: string, attachments: seq<Attachment>)

  /** One entry of `firewall.firewallStatuses`. */
  datatype FirewallStatus = FirewallStatus(syncStates: seq<SyncState>)

  /** One assignment `endpointId[zone] = endpointId` made while walking a snapshot. */
  datatype Observation = Observation(zone: string, endpointId: string)

  /** The assignments one sync state makes, in attachment order. */
  function AttachmentObservations(zone: string, attachments: seq<Attachment>): (obs: seq<Observation>)
    ensures |obs| == |attachments|
    ensures forall k :: 0 <= k < |obs| ==> obs[k] == Observation(zone, attachments[k].endpointId)
  {
    if |attachments| == 0 then []
    else AttachmentObservations(zone, attachments[..|attachments| - 1])
         + [Observation(zone, attachments[|attachments| - 1].endpointId)]
  }

  /** The assignments a list of sync states makes, in iteration order. */
  function StateObservations(states: seq<SyncState>): seq<Observation>
  {
    if |states| == 0 then []
    else
      var last := states[|states| - 1];
      StateObservations(states[..|states| - 1]) + AttachmentObservations(last.availabilityZone, last.attachments)
  }

  /** The assignments the whole snapshot makes: statuses, then sync states, then attachments. */
  function Observations(statuses: seq<FirewallStatus>): seq<Observation>
  {
    if |statuses| == 0 then []
    else Observations(statuses[..|statuses| - 1]) + StateObservations(statuses[|statuses| - 1].syncStates)
  }

  /** The dictionary after making the assignments `obs` in order, starting empty. */
  function Resolve(obs: seq<Observation>): map<string, string>
  {
    if |obs| == 0 then map[]
    else Resolve(obs[..|obs| - 1])[obs[|obs| - 1].zone := obs[|obs| - 1].endpointId]
  }

  /** The zone-to-endpoint dictionary `createRoutes` builds from a status snapshot. */
  function EndpointMap(statuses: seq<FirewallStatus>): map<string, string>
  {
    Resolve(Observations(statuses))
  }

  /** The three nested `forEach` loops that fill the `endpointId` dictionary. */
  method ResolveEndpoints(statuses: seq<FirewallStatus>) returns (endpointId: map<string, string>)
    ensures endpointId == EndpointMap(statuses)
  {
    endpointId := map[];
    var i := 0;
    while i < |statuses|
      invariant 0 <= i <= |statuses|
      invariant endpointId == Resolve(Observations(statuses[..i]))
    {
      var states := statuses[i].syncStates;
      ghost var done := Observations(statuses[..i]);
      var j := 0;
      assert states[..0] == [] && done + [] == done;
      while j < |states|
        invariant 0 <= j <= |states|
        invariant endpointId == Resolve(done + StateObservations(states[..j]))
      {
        var state := states[j];
        ghost var before := done + StateObservations(states[..j]);
        var k := 0;
        assert state.attachments[..0] == [] && before + [] == before;
        while k < |state.attachments|
          invariant 0 <= k <= |state.attachments|
          invariant endpointId == Resolve(before + AttachmentObservations(state.availabilityZone, state.attachments[..k]))
        {
          AttachmentStep(before, state.availabilityZone, state.attachments, k);
          endpointId := endpointId[state.availabilityZone := state.attachments[k].endpointId];
          k := k + 1;
        }
        SyncStateStep(done, states, j);
        j := j + 1;
      }
      StatusStep(statuses, i);
      i := i + 1;
    }
    assert statuses[..i] == statuses;
  }

  /** One pass of the innermost loop makes one more assignment. */
  lemma AttachmentStep(before: seq<Observation>, zone: string, attachments: seq<Attachment>, k: nat)
    requires k < |attachments|
    ensures Resolve(before + AttachmentObservations(zone, attachments[..k + 1]))
         == Resolve(before + AttachmentObservations(zone, attachments[..k]))[zone := attachments[k].endpointId]
  {
    var seen := before + AttachmentObservations(zone, attachments[..k]);
    var o := Observation(zone, attachments[k].endpointId);
    assert attachments[..k + 1][..k] == attachments[..k];
    assert before + AttachmentObservations(zone, attachments[..k + 1]) == seen + [o];
    assert (seen + [o])[..|seen|] == seen;
  }

  /** One pass of the middle loop makes the assignments of one sync state. */
  lemma SyncStateStep(done: seq<Observation>, states: seq<SyncState>, j: nat)
    requires j < |states|
    ensures done + StateObservations(states[..j + 1])
         == done + StateObservations(states[..j]) + AttachmentObservations(states[j].availabilityZone, states[j].attachments[..|states[j].attachments|])
  {
    assert states[j].attachments[..|states[j].attachments|] == states[j].attachments;
    assert states[..j + 1][..j] == states[..j];
  }

  /** One pass of the outer loop makes the assignments of one status. */
  lemma StatusStep(statuses: seq<FirewallStatus>, i: nat)
    requires i < |statuses|
    ensures Observations(statuses[..i + 1])
         == Observations(statuses[..i]) + StateObservations(statuses[i].syncStates[..|statuses[i].syncStates|])
  {
    assert statuses[i].syncStates[..|statuses[i].syncStates|] == statuses[i].syncStates;
    assert statuses[..i + 1][..i] == statuses[..i];
  }

  /** `k` is the last assignment to `zone` among `obs`. */
  ghost predicate LastFor(obs: seq<Observation>, zone: string, k: int)
  {
    0 <= k < |obs| && obs[k].zone == zone && forall j :: k < j < |obs| ==> obs[j].zone != zone
  }

  /** Last write wins: a zone is in the dictionary exactly when some assignment
      names it, and it then holds the endpoint of the last such assignment. */
  lemma {:induction false} ResolveLastWriteWins(obs: seq<Observation>, zone: string)
    ensures zone in Resolve(obs) <==> Mentions(obs, zone)
    ensures zone in Resolve(obs) ==> exists k :: LastFor(obs, zone, k) && Resolve(obs)[zone] == obs[k].endpointId
  {
    if |obs| > 0 {
      var n := |obs| - 1;
      var init := obs[..n];
      ResolveLastWriteWins(init, zone);
      if obs[n].zone == zone {
        assert LastFor(obs, zone, n);
      } else {
        if zone in Resolve(init) {
          var k :| LastFor(init, zone, k) && Resolve(init)[zone] == init[k].endpointId;
          assert LastFor(obs, zone, k);
        }
        if Mentions(obs, zone) {
          var k :| 0 <= k < |obs| && obs[k].zone == zone;
          assert init[k].zone == zone;
        }
      }
    }
  }

  /** Some assignment among `obs` is to `zone`. */
  ghost predicate Mentions(obs: seq<Observation>, zone: string)
  {
    exists k :: 0 <= k < |obs| && obs[k].zone == zone
  }

  /** `zone` is reported by a sync state that has at least one attachment. */
  ghost predicate ReportedAmong(states: seq<SyncState>, zone: string)
  {
    exists j :: 0 <= j < |states| && states[j].availabilityZone == zone && |states[j].attachments| > 0
  }

  lemma MentionsAppend(a: seq<Observation>, b: seq<Observation>, zone: string)
    ensures Mentions(a + b, zone) <==> Mentions(a, zone) || Mentions(b, zone)
  {
    if Mentions(a + b, zone) {
      var k :| 0 <= k < |a + b| && (a + b)[k].zone == zone;
      if k >= |a| {
        assert b[k - |a|].zone == zone;
      } else {
        assert a[k].zone == zone;
      }
    }
    if Mentions(a, zone) {
      var k :| 0 <= k < |a| && a[k].zone == zone;
      assert (a + b)[k] == a[k];
    }
    if Mentions(b, zone) {
      var k :| 0 <= k < |b| && b[k].zone == zone;
      assert (a + b)[|a| + k] == b[k];
    }
  }

  lemma {:induction false} StateObservationsZones(states: seq<SyncState>, zone: string)
    ensures Mentions(StateObservations(states), zone) <==> ReportedAmong(states, zone)
  {
    if |states| > 0 {
      var n := |states| - 1;
      var init := states[..n];
      var last := states[n];
      StateObservationsZones(init, zone);
      var b := AttachmentObservations(last.availabilityZone, last.attachments);
      MentionsAppend(StateObservations(init), b, zone);
      assert Mentions(b, zone) <==> last.availabilityZone == zone && |last.attachments| > 0 by {
        if |last.attachments| > 0 { assert b[0].zone == last.availabilityZone; }
      }
      if ReportedAmong(init, zone) {
        var j :| 0 <= j < |init| && init[j].availabilityZone == zone && |init[j].attachments| > 0;
        assert states[j] == init[j];
      }
      if ReportedAmong(states, zone) && !(last.availabilityZone == zone && |last.attachments| > 0) {
        var j :| 0 <= j < |states| && states[j].availabilityZone == zone && |states[j].attachments| > 0;
        assert init[j] == states[j];
      }
    }
  }

  /** `zone` is reported, with at least one attachment, somewhere in the snapshot. */
  ghost predicate Reported(statuses: seq<FirewallStatus>, zone: string)
  {
    exists i :: 0 <= i < |statuses| && ReportedAmong(statuses[i].syncStates, zone)
  }

  lemma {:induction false} ObservationsZones(statuses: seq<FirewallStatus>, zone: string)
    ensures Mentions(Observations(statuses), zone) <==> Reported(statuses, zone)
  {
    if |statuses| > 0 {
      var n := |statuses| - 1;
      var init := statuses[..n];
      ObservationsZones(init, zone);
      StateObservationsZones(statuses[n].syncStates, zone);
      MentionsAppend(Observations(init), StateObservations(statuses[n].syncStates), zone);
      if Reported(init, zone) {
        var i :| 0 <= i < |init| && ReportedAmong(init[i].syncStates, zone);
        assert statuses[i] == init[i];
      }
      if Reported(statuses, zone) && !ReportedAmong(statuses[n].syncStates, zone) {
        var i :| 0 <= i < |statuses| && ReportedAmong(statuses[i].syncStates, zone);
        assert init[i] == statuses[i];
      }
    }
  }

  /** A zone is in the endpoint dictionary exactly when some sync state for it
      has at least one attachment; it then holds the endpoint of the last
      attachment reported for it in iteration order. */
  lemma EndpointMapLastWriteWins(statuses: seq<FirewallStatus>, zone: string)
    ensures zone in EndpointMap(statuses) <==> Reported(statuses, zone)
    ensures zone in EndpointMap(statuses) ==>
              var obs := Observations(statuses);
              exists k :: LastFor(obs, zone, k) && EndpointMap(statuses)[zone] == obs[k].endpointId
  {
    ResolveLastWriteWins(Observations(statuses), zone);
    ObservationsZones(statuses, zone);
  }

  lemma {:induction false} StateObservationsAppend(xs: seq<SyncState>, ys: seq<SyncState>)
    ensures StateObservations(xs + ys) == StateObservations(xs) + StateObservations(ys)
  {
    if |ys| > 0 {
      var n := |ys| - 1;
      StateObservationsAppend(xs, ys[..n]);
      assert (xs + ys)[..|xs + ys| - 1] == xs + ys[..n];
    } else {
      assert xs + ys == xs;
    }
  }

  lemma {:induction false} ObservationsPointwise(a: seq<FirewallStatus>, b: seq<FirewallStatus>)
    requires |a| == |b|
    requires forall i :: 0 <= i < |a| ==> StateObservations(a[i].syncStates) == StateObservations(b[i].syncStates)
    ensures Observations(a) == Observations(b)
  {
    if |a| > 0 {
      ObservationsPointwise(a[..|a| - 1], b[..|b| - 1]);
    }
  }

  /** A sync state with no attachments neither adds, removes nor changes an
      entry: dropping it from any status leaves the dictionary as it was. */
  lemma EmptySyncStateIsNoOp(statuses: seq<FirewallStatus>, i: nat, before: seq<SyncState>, zone: string, after: seq<SyncState>)
    requires i < |statuses|
    ensures EndpointMap(statuses[i := FirewallStatus(before + [SyncState(zone, [])] + after)])
         == EndpointMap(statuses[i := FirewallStatus(before + after)])
  {
    StateObservationsAppend(before + [SyncState(zone, [])], after);
    StateObservationsAppend(before, [SyncState(zone, [])]);
    StateObservationsAppend(before, after);
    assert [SyncState(zone, [])][..0] == [];
    assert StateObservations([SyncState(zone, [])]) == [];
    ObservationsPointwise(statuses[i := FirewallStatus(before + [SyncState(zone, [])] + after)],
                          statuses[i := FirewallStatus(before + after)]);
  }

  /** The route name prefixes for the attachment (isolated) and public subnets. */
  const IsolatedRoutePrefix: string := "CloudWanSubnetRouteToFW-"
  const PublicRoutePrefix: string := "PublicSubnetRouteToFW-"

  /** `endpointId[az]` where it is truthy: present and not the empty string. */
  function EndpointFor(endpointId: map<string, string>, zone: string): Option<string>
  {
    if zone in endpointId && endpointId[zone] != "" then Some(endpointId[zone]) else None
  }

  /** The route one subnet gets through the firewall endpoint of its zone, if both
      that endpoint and the subnet's route table are there. */
  function FirewallRoute(prefix: string, endpointId: map<string, string>, destination: string, subnet: Subnet): Option<Route>
  {
    var endpoint := EndpointFor(endpointId, subnet.availabilityZone);
    if endpoint.Some? && subnet.routeTable.Some?
    then Some(Route(prefix + subnet.subnetName, subnet.routeTable.value, destination, VpcEndpoint(endpoint.value)))
    else None
  }

  function ToFirewall(prefix: string, endpointId: map<string, string>, destination: string): Subnet -> Option<Route>
  {
    subnet => FirewallRoute(prefix, endpointId, destination, subnet)
  }

  /** The routes `createRoutes` registers: first for the isolated subnets, to
      0.0.0.0/0, then for the public subnets, to the organisation range. */
  function InspectionRoutes(statuses: seq<FirewallStatus>, subnets: seq<Subnet>, organisationCidr: string): seq<Route>
  {
    var endpointId := EndpointMap(statuses);
    PlannedRoutes(WithRole(subnets, Isolated), ToFirewall(IsolatedRoutePrefix, endpointId, AnyDestination))
    + PlannedRoutes(WithRole(subnets, Public), ToFirewall(PublicRoutePrefix, endpointId, organisationCidr))
  }

  /** `Inspection.createRoutes`, once the status snapshot and the VPC's subnets
      have resolved: one `aws.ec2.Route` per routable subnet, appended in order. */
  method CreateRoutes(statuses: seq<FirewallStatus>, subnets: seq<Subnet>, organisationCidr: string) returns (routes: seq<Route>)
    ensures routes == InspectionRoutes(statuses, subnets, organisationCidr)
  {
    var endpointId := ResolveEndpoints(statuses);
    var isoSubnets := WithRole(subnets, Isolated);
    var pubSubnets := WithRole(subnets, Public);
    routes := [];
    var i := 0;
    while i < |isoSubnets|
      invariant 0 <= i <= |isoSubnets|
      invariant routes == PlannedRoutes(isoSubnets[..i], ToFirewall(IsolatedRoutePrefix, endpointId, AnyDestination))
    {
      var subnet := isoSubnets[i];
      var az := subnet.availabilityZone;
      if az in endpointId && endpointId[az] != "" && subnet.routeTable.Some? {
        routes := routes + [Route(IsolatedRoutePrefix + subnet.subnetName, subnet.routeTable.value, AnyDestination, VpcEndpoint(endpointId[az]))];
      }
      assert isoSubnets[..i + 1][..i] == isoSubnets[..i];
      i := i + 1;
    }
    assert isoSubnets[..i] == isoSubnets;
    ghost var isoRoutes := routes;
    var j := 0;
    while j < |pubSubnets|
      invariant 0 <= j <= |pubSubnets|
      invariant routes == isoRoutes + PlannedRoutes(pubSubnets[..j], ToFirewall(PublicRoutePrefix, endpointId, organisationCidr))
    {
      var subnet := pubSubnets[j];
      var az := subnet.availabilityZone;
      if az in endpointId && endpointId[az] != "" && subnet.routeTable.Some? {
        routes := routes + [Route(PublicRoutePrefix + subnet.subnetName, subnet.routeTable.value, organisationCidr, VpcEndpoint(endpointId[az]))];
      }
      assert pubSubnets[..j + 1][..j] == pubSubnets[..j];
      j := j + 1;
    }
    assert pubSubnets[..j] == pubSubnets;
  }

  /** A subnet can be routed through the firewall: its zone has a truthy endpoint
      and it has a route table. */
  predicate Routable(endpointId: map<string, string>, subnet: Subnet)
  {
    EndpointFor(endpointId, subnet.availabilityZone).Some? && subnet.routeTable.Some?
  }

  /** Every route `createRoutes` emits comes from an isolated subnet (to 0.0.0.0/0)
      or a public subnet (to the organisation range) of the VPC, that subnet is
      routable, the route uses that subnet's own route table, and it targets the
      endpoint of that subnet's own zone. No firewall (private) subnet is routed. */
  lemma InspectionRoutesSound(statuses: seq<FirewallStatus>, subnets: seq<Subnet>, organisationCidr: string, r: Route)
    requires r in InspectionRoutes(statuses, subnets, organisationCidr)
    ensures exists s :: s in subnets && Routable(EndpointMap(statuses), s)
              && r.routeTableId == s.routeTable.value
              && r.target == VpcEndpoint(EndpointMap(statuses)[s.availabilityZone])
              && ((s.role == Isolated && r.name == IsolatedRoutePrefix + s.subnetName && r.destinationCidrBlock == AnyDestination)
                  || (s.role == Public && r.name == PublicRoutePrefix + s.subnetName && r.destinationCidrBlock == organisationCidr))
  {
    var endpointId := EndpointMap(statuses);
    var iso := WithRole(subnets, Isolated);
    var pub := WithRole(subnets, Public);
    var isoPlan := ToFirewall(IsolatedRoutePrefix, endpointId, AnyDestination);
    var pubPlan := ToFirewall(PublicRoutePrefix, endpointId, organisationCidr);
    if r in PlannedRoutes(iso, isoPlan) {
      PlannedRoutesMembers(iso, isoPlan, r);
      var k :| 0 <= k < |iso| && isoPlan(iso[k]) == Some(r);
      WithRoleMembers(subnets, Isolated, iso[k]);
    } else {
      assert r in PlannedRoutes(pub, pubPlan);
      PlannedRoutesMembers(pub, pubPlan, r);
      var k :| 0 <= k < |pub| && pubPlan(pub[k]) == Some(r);
      WithRoleMembers(subnets, Public, pub[k]);
    }
  }

  /** An isolated or public subnet gets a route if and only if its zone has a
      truthy endpoint and it has a route table; otherwise nothing is emitted for it.
      The route named after it uses its own route table and its own zone's endpoint. */
  lemma InspectionRouteIff(statuses: seq<FirewallStatus>, subnets: seq<Subnet>, organisationCidr: string, s: Subnet)
    requires DistinctSubnetNames(subnets)
    requires s in subnets && s.role != Private
    ensures Routable(EndpointMap(statuses), s) <==>
              exists r :: r in InspectionRoutes(statuses, subnets, organisationCidr)
                && r.name == (if s.role == Isolated then IsolatedRoutePrefix else PublicRoutePrefix) + s.subnetName
    ensures forall r :: (r in InspectionRoutes(statuses, subnets, organisationCidr)
                         && r.name == (if s.role == Isolated then IsolatedRoutePrefix else PublicRoutePrefix) + s.subnetName) ==>
              Routable(EndpointMap(statuses), s)
              && r.routeTableId == s.routeTable.value
              && r.target == VpcEndpoint(EndpointMap(statuses)[s.availabilityZone])
              && r.destinationCidrBlock == (if s.role == Isolated then AnyDestination else organisationCidr)
  {
    var endpointId := EndpointMap(statuses);
    var prefix := if s.role == Isolated then IsolatedRoutePrefix else PublicRoutePrefix;
    var dest := if s.role == Isolated then AnyDestination else organisationCidr;
    var mine := WithRole(subnets, s.role);
    var plan := ToFirewall(prefix, endpointId, dest);
    var other := WithRole(subnets, if s.role == Isolated then Public else Isolated);
    var otherPrefix := if s.role == Isolated then PublicRoutePrefix else IsolatedRoutePrefix;
    var otherPlan := ToFirewall(otherPrefix, endpointId, if s.role == Isolated then organisationCidr else AnyDestination);
    WithRoleMembers(subnets, s.role, s);
    WithRoleKeepsDistinctNames(subnets, s.role);
    var i :| 0 <= i < |mine| && mine[i] == s;
    PlannedRouteFor(mine, plan, prefix, i);
    assert InspectionRoutes(statuses, subnets, organisationCidr) ==
      (if s.role == Isolated then PlannedRoutes(mine, plan) + PlannedRoutes(other, otherPlan)
       else PlannedRoutes(other, otherPlan) + PlannedRoutes(mine, plan));
    forall r | r in PlannedRoutes(other, otherPlan)
      ensures r.name != prefix + s.subnetName
    {
      PlannedRoutesMembers(other, otherPlan, r);
      var k :| 0 <= k < |other| && otherPlan(other[k]) == Some(r);
      RoleNamesDisjoint(other[k].subnetName, s.subnetName);
    }
    forall r | r in InspectionRoutes(statuses, subnets, organisationCidr) && r.name == prefix + s.subnetName
      ensures plan(s) == Some(r)
    {
      assert r in PlannedRoutes(mine, plan);
    }
  }

  /** Names from the two roles never collide: the prefixes differ in their first letter. */
  lemma RoleNamesDisjoint(a: string, b: string)
    ensures IsolatedRoutePrefix + a != PublicRoutePrefix + b
    ensures PublicRoutePrefix + a != IsolatedRoutePrefix + b
  {
    assert (IsolatedRoutePrefix + a)[0] == 'C';
    assert (PublicRoutePrefix + b)[0] == 'P';
    assert (PublicRoutePrefix + a)[0] == 'P';
    assert (IsolatedRoutePrefix + b)[0] == 'C';
  }

  /** With distinct subnet names, all route names `createRoutes` registers are
      distinct: every subnet yields at most one route. */
  lemma InspectionRouteNamesDistinct(statuses: seq<FirewallStatus>, subnets: seq<Subnet>, organisationCidr: string)
    requires DistinctSubnetNames(subnets)
    ensures DistinctRouteNames(InspectionRoutes(statuses, subnets, organisationCidr))
  {
    var endpointId := EndpointMap(statuses);
    var iso := WithRole(subnets, Isolated);
    var pub := WithRole(subnets, Public);
    var isoPlan := ToFirewall(IsolatedRoutePrefix, endpointId, AnyDestination);
    var pubPlan := ToFirewall(PublicRoutePrefix, endpointId, organisationCidr);
    WithRoleKeepsDistinctNames(subnets, Isolated);
    WithRoleKeepsDistinctNames(subnets, Public);
    PlannedRoutesDistinctNames(iso, isoPlan, IsolatedRoutePrefix);
    PlannedRoutesDistinctNames(pub, pubPlan, PublicRoutePrefix);
    var a := PlannedRoutes(iso, isoPlan);
    var b := PlannedRoutes(pub, pubPlan);
    forall i, j | 0 <= i < |a| && 0 <= j < |b|
      ensures a[i].name != b[j].name
    {
      PlannedRoutesMembers(iso, isoPlan, a[i]);
      PlannedRoutesMembers(pub, pubPlan, b[j]);
      var k :| 0 <= k < |iso| && isoPlan(iso[k]) == Some(a[i]);
      var l :| 0 <= l < |pub| && pubPlan(pub[l]) == Some(b[j]);
      RoleNamesDisjoint(iso[k].subnetName, pub[l].subnetName);
    }
    var all := a + b;
    forall i, j | 0 <= i < j < |all|
      ensures all[i].name != all[j].name
    {
      if j < |a| {
        assert all[i] == a[i] && all[j] == a[j];
      } else if i >= |a| {
        assert all[i] == b[i - |a|] && all[j] == b[j - |a|];
      } else {
        assert all[i] == a[i] && all[j] == b[j - |a|];
      }
    }
  }

  /** The VPC attachment `createCloudWanAttachment` declares. */
  datatype VpcAttachment = VpcAttachment(coreNetworkId: string, vpcArn: string, subnetArns: seq<string>, tags: map<string, string>)

  /** `createCloudWanAttachment(region)` once the isolated subnet ids, the VPC id
      and the account id have resolved. */
  function CloudWanAttachment(region: string, accountId: string, coreNetworkId: string, vpcId: string, isolatedSubnetIds: seq<string>): (a: VpcAttachment)
    ensures a.coreNetworkId == coreNetworkId
    ensures a.tags.Keys == {"sharedservices"} && a.tags["sharedservices"] == "cloudwan-segment"
  {
    VpcAttachment(coreNetworkId, Arns.VpcArn(region, accountId, vpcId),
                  Arns.SubnetArns(region, accountId, isolatedSubnetIds),
                  map["sharedservices" := "cloudwan-segment"])
  }

  /** The attachment lists one subnet ARN per isolated subnet id, in order, each
      reading back as its id, and a VPC ARN naming the VPC. */
  lemma CloudWanAttachmentArns(region: string, accountId: string, coreNetworkId: string, vpcId: string, isolatedSubnetIds: seq<string>)
    requires ':' !in region && ':' !in accountId
    ensures var a := CloudWanAttachment(region, accountId, coreNetworkId, vpcId, isolatedSubnetIds);
            && |a.subnetArns| == |isolatedSubnetIds|
            && (forall i :: 0 <= i < |isolatedSubnetIds| ==>
                  a.subnetArns[i] == Arns.SubnetArn(region, accountId, isolatedSubnetIds[i])
                  && Arns.SubnetIdOf(a.subnetArns[i]) == Some(isolatedSubnetIds[i]))
            && Arns.Parse(a.vpcArn) == Some(Arns.Arn("aws", "ec2", region, accountId, "vpc/" + vpcId))
  {
    Arns.SubnetArnsRoundTrip(region, accountId, isolatedSubnetIds);
    Arns.VpcArnFields(region, accountId, vpcId);
  }

  /** One entry of the firewall's `subnetMappings`. */
  datatype SubnetMapping = SubnetMapping(subnetId: string)

  /** `subnetIds.map(id => { return { subnetId: id } })` over the private subnet ids. */
  function SubnetMappings(privateSubnetIds: seq<string>): seq<SubnetMapping>
  {
    if |privateSubnetIds| == 0 then []
    else SubnetMappings(privateSubnetIds[..|privateSubnetIds| - 1]) + [SubnetMapping(privateSubnetIds[|privateSubnetIds| - 1])]
  }

  /** The firewall is placed in every private subnet, one mapping per id, in order. */
  lemma {:induction false} SubnetMappingsInOrder(privateSubnetIds: seq<string>)
    ensures |SubnetMappings(privateSubnetIds)| == |privateSubnetIds|
    ensures forall i :: 0 <= i < |privateSubnetIds| ==> SubnetMappings(privateSubnetIds)[i].subnetId == privateSubnetIds[i]
  {
    if |privateSubnetIds| > 0 {
      var init := privateSubnetIds[..|privateSubnetIds| - 1];
      SubnetMappingsInOrder(init);
      forall i | 0 <= i < |init|
        ensures SubnetMappings(privateSubnetIds)[i].subnetId == privateSubnetIds[i]
      {
        assert init[i] == privateSubnetIds[i];
      }
    }
  }

  /** The inspection VPC: one tier each for the attachments (isolated), the
      firewall (private) and the public subnets, all /24, in `numberOfAzs ?? 2` zones. */
  function InspectionVpc(vpcCidr: string, numberOfAzs: Option<int>): (v: VpcSpec)
    ensures v.cidrBlock == vpcCidr
    ensures numberOfAzs.None? ==> v.numberOfAvailabilityZones == 2
    ensures numberOfAzs.Some? ==> v.numberOfAvailabilityZones == numberOfAzs.value
    ensures |v.subnets| == 3 && (set t | t in v.subnets :: t.role) == {Isolated, Private, Public}
    ensures forall i, j :: 0 <= i < j < |v.subnets| ==> v.subnets[i].role != v.subnets[j].role
    ensures forall t :: t in v.subnets ==> t.cidrMask == 24
  {
    VpcSpec(vpcCidr, NumberOfAzs(numberOfAzs),
            [SubnetTier(Isolated, "CloudWanAttachments", 24), SubnetTier(Private, "Firewall", 24), SubnetTier(Public, "Public", 24)],
            map["name" := "InspectionVPC"])
  }

  /** The assignments two statuses make: the first one's, then the second one's. */
  lemma ObservationsPair(s1: FirewallStatus, s2: FirewallStatus)
    ensures Observations([s1, s2]) == StateObservations(s1.syncStates) + StateObservations(s2.syncStates)
  {
    assert [s1, s2][..1] == [s1];
    assert [s1][..0] == [];
    assert Observations([s1]) == [] + StateObservations(s1.syncStates);
    assert [] + StateObservations(s1.syncStates) == StateObservations(s1.syncStates);
  }

  /** The assignments of one sync state, and of two in a row. */
  lemma StateObservationsSmall(a: SyncState, b: SyncState)
    ensures StateObservations([a]) == AttachmentObservations(a.availabilityZone, a.attachments)
    ensures StateObservations([a, b]) == AttachmentObservations(a.availabilityZone, a.attachments)
                                         + AttachmentObservations(b.availabilityZone, b.attachments)
  {
    assert [a][..0] == [];
    assert [a, b][..1] == [a];
  }

  /** Two assignments to one zone leave the second endpoint. */
  lemma ResolveOverwrite(o1: Observation, o2: Observation)
    requires o1.zone == o2.zone
    ensures Resolve([o1, o2]) == map[o2.zone := o2.endpointId]
  {
    assert [o1][..0] == [];
    assert Resolve([o1]) == map[o1.zone := o1.endpointId];
    assert [o1, o2][..1] == [o1];
    assert Resolve([o1, o2]) == Resolve([o1])[o2.zone := o2.endpointId];
  }

  /** Two sync states for one zone: the later endpoint is the one kept. */
  lemma LastWriteWinsExample()
    ensures EndpointMap([FirewallStatus([SyncState("us-east-1a", [Attachment("vpce-old", "subnet-f1")])]),
                         FirewallStatus([SyncState("us-east-1a", [Attachment("vpce-new", "subnet-f1")]),
                                         SyncState("us-east-1b", [])])])
         == map["us-east-1a" := "vpce-new"]
  {
    var st1 := SyncState("us-east-1a", [Attachment("vpce-old", "subnet-f1")]);
    var st2 := SyncState("us-east-1a", [Attachment("vpce-new", "subnet-f1")]);
    var st3 := SyncState("us-east-1b", []);
    var o1 := Observation("us-east-1a", "vpce-old");
    var o2 := Observation("us-east-1a", "vpce-new");
    ObservationsPair(FirewallStatus([st1]), FirewallStatus([st2, st3]));
    StateObservationsSmall(st1, st1);
    StateObservationsSmall(st2, st3);
    assert Observations([FirewallStatus([st1]), FirewallStatus([st2, st3])]) == [o1, o2];
    ResolveOverwrite(o1, o2);
  }

  /** An inspection VPC of two zones with one subnet of each tier per zone. */
  function ExampleSubnets(): seq<Subnet>
  {
    [ Subnet("CloudWanAttachments-1", Isolated, "us-east-1a", Some("rtb-i1")),
      Subnet("CloudWanAttachments-2", Isolated, "us-east-1b", Some("rtb-i2")),
      Subnet("Firewall-1", Private, "us-east-1a", Some("rtb-f1")),
      Subnet("Firewall-2", Private, "us-east-1b", Some("rtb-f2")),
      Subnet("Public-1", Public, "us-east-1a", Some("rtb-p1")),
      Subnet("Public-2", Public, "us-east-1b", Some("rtb-p2")) ]
  }

  /** The example's isolated subnets are its first two, its public subnets its last two. */
  lemma ExampleSubnetsByRole()
    ensures WithRole(ExampleSubnets(), Isolated) == [ExampleSubnets()[0], ExampleSubnets()[1]]
    ensures WithRole(ExampleSubnets(), Public) == [ExampleSubnets()[4], ExampleSubnets()[5]]
  {
    var x := ExampleSubnets();
    assert x == [x[0]] + ([x[1]] + ([x[2]] + ([x[3]] + ([x[4]] + [x[5]]))));
    assert [x[5]] == [x[5]] + [];
    assert WithRole([], Isolated) == [] && WithRole([], Public) == [];
    forall role: SubnetRole
      ensures WithRole(x, role) == (if x[0].role == role then [x[0]] else []) + (if x[1].role == role then [x[1]] else [])
                                 + (if x[2].role == role then [x[2]] else []) + (if x[3].role == role then [x[3]] else [])
                                 + (if x[4].role == role then [x[4]] else []) + (if x[5].role == role then [x[5]] else [])
    {
      WithRoleCons(x[5], [], role);
      WithRoleCons(x[4], [x[5]], role);
      WithRoleCons(x[3], [x[4]] + [x[5]], role);
      WithRoleCons(x[2], [x[3]] + ([x[4]] + [x[5]]), role);
      WithRoleCons(x[1], [x[2]] + ([x[3]] + ([x[4]] + [x[5]])), role);
      WithRoleCons(x[0], [x[1]] + ([x[2]] + ([x[3]] + ([x[4]] + [x[5]]))), role);
    }
  }

  /** The routes the example VPC gets under a given zone-to-endpoint dictionary. */
  lemma ExampleRoutes(statuses: seq<FirewallStatus>, organisationCidr: string)
    ensures var m := EndpointMap(statuses);
            var x := ExampleSubnets();
            InspectionRoutes(statuses, x, organisationCidr)
              == PlannedRoutes([x[0], x[1]], ToFirewall(IsolatedRoutePrefix, m, AnyDestination))
                 + PlannedRoutes([x[4], x[5]], ToFirewall(PublicRoutePrefix, m, organisationCidr))
  {
    ExampleSubnetsByRole();
  }

  /** The routes two subnets get, in their order. */
  lemma PlannedRoutesPair(a: Subnet, b: Subnet, plan: Subnet -> Option<Route>)
    ensures PlannedRoutes([a, b], plan)
         == (match plan(a) case Some(r) => [r] case None => []) + (match plan(b) case Some(r) => [r] case None => [])
  {
    assert [a, b][..1] == [a];
    assert [a][..0] == [];
  }

  /** The assignments of a single status are those of its sync states. */
  lemma ObservationsSingle(st: FirewallStatus)
    ensures Observations([st]) == StateObservations(st.syncStates)
  {
    assert [st][..0] == [];
    assert Observations([st]) == [] + StateObservations(st.syncStates);
  }

  /** The dictionary after one assignment, and after two. */
  lemma ResolveSmall(o1: Observation, o2: Observation)
    ensures Resolve([o1]) == map[o1.zone := o1.endpointId]
    ensures Resolve([o1, o2]) == map[o1.zone := o1.endpointId][o2.zone := o2.endpointId]
  {
    assert [o1][..0] == [];
    assert [o1, o2][..1] == [o1];
  }

  /** A snapshot in which both zones report an endpoint. */
  function BothZonesSnapshot(): seq<FirewallStatus>
  {
    [FirewallStatus([SyncState("us-east-1a", [Attachment("vpce-a", "subnet-f1")]),
                     SyncState("us-east-1b", [Attachment("vpce-b", "subnet-f2")])])]
  }

  /** A snapshot in which only the first zone reports an endpoint. */
  function PendingZoneSnapshot(): seq<FirewallStatus>
  {
    [FirewallStatus([SyncState("us-east-1a", [Attachment("vpce-a", "subnet-f1")]), SyncState("us-east-1b", [])])]
  }

  lemma BothZonesEndpoints()
    ensures EndpointMap(BothZonesSnapshot()) == map["us-east-1a" := "vpce-a"]["us-east-1b" := "vpce-b"]
  {
    var statuses := BothZonesSnapshot();
    var oa := Observation("us-east-1a", "vpce-a");
    var ob := Observation("us-east-1b", "vpce-b");
    ObservationsSingle(statuses[0]);
    StateObservationsSmall(statuses[0].syncStates[0], statuses[0].syncStates[1]);
    assert Observations(statuses) == [oa, ob];
    ResolveSmall(oa, ob);
  }

  lemma PendingZoneEndpoints()
    ensures EndpointMap(PendingZoneSnapshot()) == map["us-east-1a" := "vpce-a"]
  {
    var statuses := PendingZoneSnapshot();
    var oa := Observation("us-east-1a", "vpce-a");
    ObservationsSingle(statuses[0]);
    StateObservationsSmall(statuses[0].syncStates[0], statuses[0].syncStates[1]);
    assert Observations(statuses) == [oa];
    ResolveSmall(oa, oa);
  }

  /** Both zones report an endpoint: two isolated-subnet routes and two
      public-subnet routes, each through its own zone's endpoint. */
  lemma BothZonesRoutedExample()
    ensures InspectionRoutes(BothZonesSnapshot(), ExampleSubnets(), "10.0.0.0/8")
         == [ Route(IsolatedRoutePrefix + "CloudWanAttachments-1", "rtb-i1", AnyDestination, VpcEndpoint("vpce-a")),
              Route(IsolatedRoutePrefix + "CloudWanAttachments-2", "rtb-i2", AnyDestination, VpcEndpoint("vpce-b")),
              Route(PublicRoutePrefix + "Public-1", "rtb-p1", "10.0.0.0/8", VpcEndpoint("vpce-a")),
              Route(PublicRoutePrefix + "Public-2", "rtb-p2", "10.0.0.0/8", VpcEndpoint("vpce-b")) ]
  {
    BothZonesEndpoints();
    var m := EndpointMap(BothZonesSnapshot());
    var x := ExampleSubnets();
    ExampleRoutes(BothZonesSnapshot(), "10.0.0.0/8");
    PlannedRoutesPair(x[0], x[1], ToFirewall(IsolatedRoutePrefix, m, AnyDestination));
    PlannedRoutesPair(x[4], x[5], ToFirewall(PublicRoutePrefix, m, "10.0.0.0/8"));
  }

  /** Only the first zone reports an endpoint: the second zone's subnets get no
      route, the first zone's are routed as usual. */
  lemma PendingZoneExample()
    ensures InspectionRoutes(PendingZoneSnapshot(), ExampleSubnets(), "10.0.0.0/8")
         == [ Route(IsolatedRoutePrefix + "CloudWanAttachments-1", "rtb-i1", AnyDestination, VpcEndpoint("vpce-a")),
              Route(PublicRoutePrefix + "Public-1", "rtb-p1", "10.0.0.0/8", VpcEndpoint("vpce-a")) ]
  {
    PendingZoneEndpoints();
    var m := EndpointMap(PendingZoneSnapshot());
    var x := ExampleSubnets();
    ExampleRoutes(PendingZoneSnapshot(), "10.0.0.0/8");
    PlannedRoutesPair(x[0], x[1], ToFirewall(IsolatedRoutePrefix, m, AnyDestination));
    PlannedRoutesPair(x[4], x[5], ToFirewall(PublicRoutePrefix, m, "10.0.0.0/8"));
  }
}
